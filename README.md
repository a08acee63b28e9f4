# Darts game engine, modelled in Dafny

This project models the turn-based game engine of a browser darts scorer. A board camera
feed reports, on every change, the darts currently in the board. The engine holds four
rule sets, each a state machine fed with `processThrow(segment)` for every new dart and
`nextPlayer()` at every takeout:

- **Killer**: every player is dealt a board number. Hitting it makes them a killer, and a
  killer who hits an opponent's number takes one of that opponent's lives.
- **X01 (301)**: players count down to exactly zero. The darts of a turn are accumulated
  and only committed at the end of the turn, unless the turn busts. Double-out is optional.
- **Cricket**: players close 20 to 15 and the bull with three marks each. Extra marks score
  while some opponent still has the number open.
- **Snakes & Ladders**: each dart's points move the player on a 100-square board, followed
  by at most one snake or ladder.

All four share a player rotation (`BaseGame`). Above them sit two pieces of module state.
The session manager holds the setup roster, the chosen game type and the running game. The
throw integrator turns the feed's repeated snapshots into edge-triggered calls.

The source has two copies of the session layer. The modular one is `games/index.js`, with
all four games. The older single-file one is `games.js`, which has its own copy of the
Killer class. That copy is the same rules with the base class inlined. Its session differs
in two places:

- it ignores clicks on the 301 and Cricket buttons (games.js:29);
- it only starts Killer (games.js:114-124).

In the model, `Session.GameSession` carries a `build` constant, `Modular` or `Legacy`, that
selects between the two.

Modules, one per source file:

| module | file | content |
|---|---|---|
| `Wrappers` | — | `Option` for `null` and `NaN`, the `x \|\| d` default, `Math.min` |
| `Segments` | — | a dart's segment, as number and multiplier, and its points |
| `Base` | games/base.js | the rotation: `Table` value, `BaseGame` class, lap lemmas |
| `Killer` | games/killer.js, games.js:147-317 | `KillerGame` and its rules |
| `X01` | games/x01.js | `X01Game` and its turn accumulator |
| `Cricket` | games/cricket.js | `CricketGame` and its marks and scoring |
| `SnakesLadders` | games/snakes-ladders.js | `SnakesAndLaddersGame` and its tables |
| `Games` | games/index.js | the four games behind one `processThrow`/`nextPlayer` interface |
| `Integrator` | games/index.js:184-209 | the counters of `handleGameThrow`, as values |
| `Session` | games/index.js, games.js | the module state and its handlers, as a class |

Each game is a class whose fields are updated in place, as in the source. Each class method
is proved to move the class's state exactly as a pure function of the model says:

- `ProcessThrow` and `ApplyThrow`;
- `NextPlayer` and `PassTurn`;
- `CheckWinner` and `Judge`.

The rules are then proved as lemmas about those functions. Several of them are preserved
invariants:

- `Killer.InPlay`;
- `X01.InPlay`;
- `Cricket.InPlay`;
- `SnakesLadders.WellFormed`.

The session's invariant carries the running game's invariant too, so every handler keeps
it.

Player records are datatypes in the `players` sequence of the shared `BaseGame` object. A
record the source mutates in place is replaced by its updated copy at the same index.

## Model

| member | source | states |
|---|---|---|
| Segments.Score | games/x01.js:38 | a dart is worth number × multiplier, between 0 and 75, and worth 0 exactly on a miss |
| Base.NextIndex | games/base.js:28-30 | `(i + 1) % n` is the next seat, wrapping from the last seat to seat 0, and stays below n |
| Base.Advance | games/base.js:28-30 | k calls of `nextPlayerIndex` stay in range |
| Base.AdvanceWithinLap | games/base.js:28-30 | within one lap, k calls move k seats forward, wrapping once |
| Base.FullLap | games/base.js:28-30 | n calls of `nextPlayerIndex` return to the starting seat |
| Base.EverySeatWithinLap | games/base.js:28-30 | every other seat is reached after some number of calls strictly between 0 and n |
| Base.NoEarlyReturn | games/base.js:28-30 | fewer than n calls (but at least one) never land on the starting seat |
| Base.Rotate | games/base.js:28-30 | the table after `nextPlayerIndex` is again valid; the players, `gameOver` and the winner are unchanged, and the index moves to the next seat |
| Base.BaseGame.constructor | games/base.js:9-15 | a new game has the given players, index 0, not over, no winner |
| Base.BaseGame.GetCurrentPlayer | games/base.js:17-19 | the current player is one of the players, read without side effects |
| Base.BaseGame.NextPlayerIndex | games/base.js:28-30 | the new state is `Rotate` of the old one: only the index moves, to the next seat |
| Killer.BoardNumbersDistinct | games/killer.js:28 | the twenty listed board numbers are pairwise distinct |
| Killer.BoardNumbersRange | games/killer.js:28 | the listed numbers are exactly 1..20 |
| Killer.BoardNumbersAreDeck | games/killer.js:28 | the list holds each of 1..20 exactly once |
| Killer.FisherYates | games/killer.js:30-33 | the in-place swap loop, with an arbitrary swap index in [0, i], permutes the array |
| Killer.ShuffleNumbers | games/killer.js:26-35 | the result has 20 entries and holds each of 1..20 exactly once, so it is a permutation of the list |
| Killer.DealtNumbers | games/killer.js:14-18 | the shuffled numbers are pairwise distinct board numbers |
| Killer.Deal | games/killer.js:16-23 | player i gets roster entry i's id and name, the i-th shuffled number, the starting lives, no hits, not a killer, not eliminated |
| Killer.DealtTable | games/killer.js:14-23 | dealing distinct numbers to a roster with distinct ids gives a well-formed starting table |
| Killer.FindTarget | games/killer.js:67-71 | `find` returns the first player holding the number, still in and not the thrower, or none when there is none |
| Killer.Survivors | games/killer.js:114 | `filter` returns, in seat order, exactly the players not eliminated |
| Killer.SurvivorsOfOne | games/killer.js:114-116 | one survivor in the filtered list is the same as exactly one player not eliminated |
| Killer.SurvivorsOfSole | games/killer.js:114-116 | with a sole survivor, the filtered list is that player alone |
| Killer.Judge | games/killer.js:113-121 | `checkWinner` sets `gameOver` and the winner exactly when one player is left, the winner being that player; otherwise nothing changes |
| Killer.ApplyThrow | games/killer.js:42-92 | a throw keeps ids and numbers distinct, never moves the index, never changes ids, names or numbers, and does nothing after game over |
| Killer.Gap | games/killer.js:98-102 | the do-while stops at the first step landing on a player still in, or after a full lap |
| Killer.PassTurn | games/killer.js:94-107 | `nextPlayer` keeps the players and the winner, and does nothing after game over |
| Killer.StartedInPlay | games/killer.js:14-23 | a started game with two or more players satisfies the running invariant |
| Killer.ThrowAfterGameOver | games/killer.js:42-43 | a throw after game over changes nothing |
| Killer.OwnNumberCountsOne | games/killer.js:50-63 | a non-killer's own-number hit adds exactly one hit whatever the multiplier, makes them a killer exactly when the count reaches `hitsToKiller`, and changes no lives or other players |
| Killer.KillerHitTakesOneLife | games/killer.js:66-87 | a killer's hit on an opponent still in takes exactly one life from that opponent, eliminates them iff no life is left, leaves everyone else unchanged, and ends the game iff one player is left |
| Killer.KillerOwnNumberHarmless | games/killer.js:66-71 | a killer hitting their own number changes nothing |
| Killer.MissChangesNothing | games/killer.js:50-91 | a non-killer missing their number, or a killer hitting no opponent still in, changes nothing |
| Killer.MultiplierIgnored | games/killer.js:46-74 | the multiplier never matters |
| Killer.ThrowerKeepsLives | games/killer.js:67-74 | the thrower never loses a life on their own throw |
| Killer.PassTurnLandsOnSurvivor | games/killer.js:94-107 | a game not over either moves within one lap to a player still in, every seat skipped being eliminated, or ends with everyone but the current player eliminated |
| Killer.ThrowKeepsInPlay | games/killer.js:42-92 | throws preserve the invariant: the thrower and some other player are still in while running, and a winner is the sole survivor |
| Killer.OwnHitKeepsInPlay | games/killer.js:50-63 | an own-number hit eliminates nobody, so the invariant holds after it |
| Killer.TargetHitKeepsInPlay | games/killer.js:66-87 | a killer's hit on an opponent keeps the invariant |
| Killer.JudgeKeepsInPlay | games/killer.js:113-121 | after a life is taken with the thrower still in, `checkWinner` keeps the invariant |
| Killer.PassTurnKeepsInPlay | games/killer.js:94-107 | `nextPlayer` preserves the invariant, and while the invariant holds it never takes the game-over branch |
| Killer.KillerGame.constructor | games/killer.js:6-24 | falsy options fall back to 3 lives and 1 hit; every player starts with full lives, no hits, not a killer, not eliminated, and a distinct board number |
| Killer.KillerGame.ProcessThrow | games/killer.js:42-92 | the new state is `ApplyThrow` of the old one |
| Killer.KillerGame.CheckWinner | games/killer.js:113-121 | the new state is `Judge` of the old one |
| Killer.KillerGame.NextPlayer | games/killer.js:94-107 | the do-while loop leaves the state `PassTurn` gives |
| X01.TurnTotalSplit | games/x01.js:40-41 | a turn's total is additive over any split of its darts |
| X01.TurnTotalNonNegative | games/x01.js:38-41 | a turn's total is between 0 and 75 per dart |
| X01.ApplyThrow | games/x01.js:34-42 | a throw keeps `currentTurnScore` equal to the sum of `currentTurnDarts` |
| X01.EndTurn | games/x01.js:84-89 | resetting the accumulator and rotating gives a well-formed state |
| X01.PassTurn | games/x01.js:50-95 | the end of a turn keeps the accumulator equal to its darts |
| X01.StartedInPlay | games/x01.js:9-23 | a fresh game with a non-negative start satisfies the invariant |
| X01.ThrowAccumulates | games/x01.js:34-42 | a dart is appended with its points, the turn total grows by those points, the thrower's darts by one, and the score, the other players and the index are unchanged |
| X01.ThrowsAddUp | games/x01.js:40-41 | after any further darts the accumulator is the old total plus theirs, and never less than the old total |
| X01.BustExactly | games/x01.js:56-59 | a turn busts iff it overshoots, or, with double-out, it reaches zero without ending on a double (an empty turn is no double) |
| X01.BustKeepsScore | games/x01.js:56-61 | a bust leaves every player unchanged, resets the accumulator and rotates |
| X01.CommitLowersScore | games/x01.js:62-68 | a non-bust takes the turn total off the score, which never rises and never goes below 0, and raises `highestScore` to the maximum |
| X01.CheckoutEndsGame | games/x01.js:75-81 | reaching exactly 0 ends the game with the thrower as winner, checkouts + 1, no rotation and the accumulator kept |
| X01.OtherTurnsRotate | games/x01.js:84-89 | every end of turn other than a checkout resets the accumulator and rotates, busts included |
| X01.FrozenAfterGameOver | games/x01.js:34-51 | throws and turn ends do nothing after game over |
| X01.ThrowKeepsInPlay | games/x01.js:34-42 | throws preserve the invariant: scores ≥ 0, over iff won, and the winner on 0 |
| X01.PassTurnKeepsInPlay | games/x01.js:50-89 | turn ends preserve the same invariant |
| X01.X01Game.constructor | games/x01.js:6-24 | a falsy starting score falls back to 301; every player starts on it with zero darts, best turn and checkouts, and an empty accumulator |
| X01.X01Game.ProcessThrow | games/x01.js:34-48 | the new state is `ApplyThrow` of the old one |
| X01.X01Game.NextPlayer | games/x01.js:50-95 | the new state is `PassTurn` of the old one |
| Cricket.MaxScore | games/cricket.js:74 | `Math.max` of the scores is at least every score and equal to one of them |
| Cricket.FirstChampion | games/cricket.js:70-82 | the loop's choice: the first player, in seat order, with all numbers closed and a score at least the highest |
| Cricket.Judge | games/cricket.js:67-83 | `checkWinner` changes neither the players nor the index |
| Cricket.Mark | games/cricket.js:35-50 | adding marks and scoring keeps marks in [0, 6], touches only the thrower, never lowers their score, and keeps the index, `gameOver` and the winner |
| Cricket.ApplyThrow | games/cricket.js:23-57 | a throw keeps marks in [0, 6] and ids distinct, never moves the index, and does nothing after game over |
| Cricket.PassTurn | games/cricket.js:59-65 | `nextPlayer` keeps the table well-formed |
| Cricket.StartedInPlay | games/cricket.js:6-16 | a fresh game satisfies the invariant |
| Cricket.ChampionExactly | games/cricket.js:71-75 | a champion has every number closed and no player ahead, and conversely |
| Cricket.OtherNumbersIgnored | games/cricket.js:30-33 | a dart outside 20..15 and the bull changes nothing |
| Cricket.MarksRule | games/cricket.js:35-50 | a valid dart adds the multiplier to the thrower's marks on that number only, capped at 6, and changes no other player |
| Cricket.OthersOpenExactly | games/cricket.js:40-42 | the `some` test on the list after the add is true iff another seat has the number below 3 marks |
| Cricket.ScoringRule | games/cricket.js:37-47 | the score grows by number × multiplier iff the marks after adding exceed 3 and another seat has the number below 3; otherwise it is unchanged |
| Cricket.ScoresNeverDecrease | games/cricket.js:44-45 | no throw lowers any score |
| Cricket.JudgePicksFirstChampion | games/cricket.js:67-83 | the game ends iff some player is a champion, the winner being the first one; otherwise nothing changes |
| Cricket.ThrowKeepsInPlay | games/cricket.js:23-57 | throws preserve the invariant: over iff won, the winner being the first champion |
| Cricket.PassTurnRotates | games/cricket.js:59-65 | `nextPlayer` only advances the index, and does nothing after game over |
| Cricket.CricketGame.constructor | games/cricket.js:6-16 | every player starts with no marks on the seven numbers and score 0 |
| Cricket.CricketGame.ProcessThrow | games/cricket.js:23-57 | the new state is `ApplyThrow` of the old one |
| Cricket.CricketGame.CheckWinner | games/cricket.js:67-83 | the loop leaves the state `Judge` gives |
| Cricket.CricketGame.NextPlayer | games/cricket.js:59-65 | the new state is `PassTurn` of the old one |
| SnakesLadders.ApplyThrow | games/snakes-ladders.js:36-75 | every position stays in [0, 100], the index never moves, and a winner stands on 100 |
| SnakesLadders.PassTurn | games/snakes-ladders.js:77-84 | `nextPlayer` keeps the table well-formed |
| SnakesLadders.TablesPointInside | games/snakes-ladders.js:19-28 | snakes lead down and ladders up, all between squares 1 and 99 |
| SnakesLadders.JumpStaysBelowEnd | games/snakes-ladders.js:52-63 | a jump from a square below 100 lands below 100, and square 100 has no jump |
| SnakesLadders.StartedWellFormed | games/snakes-ladders.js:10-16 | a fresh game is well-formed |
| SnakesLadders.ThrowMoves | games/snakes-ladders.js:39-63 | a dart adds its points to `totalScore` and 1 to `darts`, and moves to the jump of min(position + points, 100); no one else changes |
| SnakesLadders.WinExactly | games/snakes-ladders.js:67-72 | the game is won iff position + points ≥ 100, and then the winner stands on exactly 100 |
| SnakesLadders.SnakeBeforeLadder | games/snakes-ladders.js:52-63 | 62 is in both tables and lands on 18 |
| SnakesLadders.NoChaining | games/snakes-ladders.js:52-63 | 69 slides to 33, a ladder foot, and stays there |
| SnakesLadders.ClampThenSnake | games/snakes-ladders.js:47-57 | from 95, 3 points reach 98 and slide to 28, and 60 points stop at 100 |
| SnakesLadders.PassTurnRotates | games/snakes-ladders.js:77-84 | `nextPlayer` only advances the index; both operations do nothing after game over |
| SnakesLadders.SnakesAndLaddersGame.constructor | games/snakes-ladders.js:6-29 | every player starts on square 0 with zero total and darts |
| SnakesLadders.SnakesAndLaddersGame.ProcessThrow | games/snakes-ladders.js:36-75 | the new state is `ApplyThrow` of the old one |
| SnakesLadders.SnakesAndLaddersGame.NextPlayer | games/snakes-ladders.js:77-84 | the new state is `PassTurn` of the old one |
| Games.ThrowStep | games/index.js:190 | `processThrow` on the running game keeps its table well-formed |
| Games.TurnStep | games/index.js:199 | `nextPlayer` on the running game keeps its table well-formed |
| Games.ThrowStepKeepsInPlay | games/index.js:190 | whatever the rule set, `processThrow` keeps that rule set's running invariant (`Killer.InPlay`, `X01.InPlay`, `Cricket.InPlay`, `SnakesLadders.WellFormed`) |
| Games.TurnStepKeepsInPlay | games/index.js:199 | whatever the rule set, `nextPlayer` keeps that rule set's running invariant |
| Games.ThrowKeepsTurn | games/index.js:190 | in every rule set a throw keeps the index and the seats, and a finished game stays as it is |
| Games.TurnStepFrozenWhenOver | games/index.js:199 | in every rule set a turn end keeps the seats and the index in range, and does nothing after game over |
| Games.ProcessThrow | games/index.js:190 | dispatching a throw keeps the rule set's running invariant and moves the game's state by `ThrowStep` |
| Games.NextPlayer | games/index.js:199 | dispatching a turn end keeps the rule set's running invariant and moves the game's state by `TurnStep` |
| Integrator.Observe | games/index.js:188-208 | after a snapshot, `lastThrowCount` is its count; the turn count grows by one exactly on a new throw; a callback is scheduled exactly on a takeout with darts counted |
| Integrator.Fire | games/index.js:198-201 | the callback zeroes the turn's count and consumes one scheduled callback |
| Integrator.RunRemembersLastCount | games/index.js:193-208 | after any stream, `lastThrowCount` is the last snapshot's count |
| Integrator.DispatchedIsEdges | games/index.js:188-193 | the dispatches made are exactly the snapshots with a dart and a count above the previous snapshot's |
| Integrator.CountedIsDispatched | games/index.js:188-192 | with no callback in between, the turn count grows by exactly the number of dispatches |
| Integrator.RebroadcastDispatchedOnce | games/index.js:188-208 | the feed sending counts 0, 1, 1, 2 makes exactly two `processThrow` calls |
| Integrator.TakeoutSchedulesOnlyAfterDarts | games/index.js:196-203 | a takeout schedules a callback iff darts were counted, and none right after a callback ran |
| Integrator.DoubleTakeoutSchedulesTwice | games/index.js:196-203 | two takeouts before the callback runs schedule two `nextPlayer` calls |
| Session.RemoveId | games/index.js:107 | the filtered roster holds exactly the entries without the id |
| Session.RemoveIdDistributes | games/index.js:107 | filtering distributes over concatenation, so the order of the rest is kept |
| Session.RemoveAbsentId | games/index.js:107 | removing an id nobody has changes nothing |
| Session.RemoveKeepsDistinct | games/index.js:107 | removal keeps ids distinct |
| Session.ConsKeepsDistinct | games/index.js:107 | a kept entry whose id the rest lacks keeps the ids distinct |
| Session.GameSession.constructor | games/index.js:8-12 | no game, no players, Killer selected, counters at 0 |
| Session.GameSession.SelectGameType | games.js:27-35 | the type becomes the clicked one, except that the single-file build ignores 301 and Cricket |
| Session.GameSession.OpenGameSetup | games/index.js:87-91 | the roster is emptied and nothing else changes |
| Session.GameSession.AddPlayer | games/index.js:97-104 | the player is appended iff fewer than 8 are listed, so the roster never exceeds 8 |
| Session.GameSession.RemovePlayer | games/index.js:106-109 | the roster becomes `RemoveId` of the old one |
| Session.GameSession.StartGame | games/index.js:128-166 | nothing with fewer than 2 players or an unknown type; otherwise a fresh Killer, X01 from 301, Cricket or Snakes game for its type, started as its constructor promises; counters untouched; the single-file build starts Killer only (games.js:106-124) |
| Session.GameSession.EndGame | games/index.js:168-180 | a confirmed end removes the game, so no game is active |
| Session.GameSession.IsGameActive | games/index.js:211-213 | the game is active iff there is a current game |
| Session.GameSession.DispatchThrow | games/index.js:188-192 | exactly on a new throw, the game gets one `processThrow` with the snapshot's last dart and the turn's count grows by one; nothing else changes |
| Session.GameSession.HandleGameThrow | games/index.js:184-209 | nothing without a game; otherwise the counters move by `Observe` and, on a new throw only, the game gets one `processThrow` with the snapshot's last dart |
| Session.GameSession.FireTimer | games/index.js:198-201 | with a game, one `nextPlayer`, then the count is zeroed; without one, the callback faults and only the scheduled count drops |

## Left out

- Rendering, status and event messages are not modelled. This covers `render`,
  `renderSpace`, `showWinner`, `updateStatus`, `updateGameOptions`, `updatePlayerList`,
  `start`, the modal and button wiring, and `alert`. They only write to the page.
- `confirm` in `endGame` becomes a boolean parameter.
- app.js and extension.py are not part of this model. They hold the feed's WebSocket
  transport, canvas drawing and a static file server.
- `Math.random` in `shuffleNumbers` becomes an arbitrary choice of the swap index in
  [0, i]. Only the permutation property is proved, with no distribution.
- The 1000 ms `setTimeout` delay is not modelled. A scheduled callback is counted in
  `pendingTimers`, and `FireTimer` runs one of them whenever it is called. Callbacks are not
  cancelled.
- A callback that fires after `endGame` faults before its reset, which `FireTimer` reports.
  One that fires after a new game has started advances the new game, since it reads
  `currentGame` when it runs.
- X01's `average` is float division formatted as a string, so it is omitted.
- Player ids come from `Date.now()`. `AddPlayer` takes the id as a parameter and requires it
  to differ from every listed id.
- `parseInt` of the Killer form fields becomes an `Option<int>`, with `None` for `NaN`.
- Segment values are assumed to be a board number in 0..25 and a multiplier in 0..3
  (`Segments.BoardNumber`, `Segments.Multiplier`). The source does not check them. The
  bounds on `Segments.Score`, the X01 score never rising and never going below 0, Cricket
  marks staying at least 0 and Snakes positions staying at least 0 all rest on this.
- Player colours, `gameName`, `boardSize` (kept as the constant 100) and the segment's
  display name and bed are not modelled.
- `data.throws` missing from a snapshot is modelled as an empty list. A missing
  `numThrows` is not modelled: counts are integers.
- Killer.KillerGame.constructor requires at most 20 players. With more, the source would
  deal `undefined` as a number. The session never passes more than 8.
- Killer.KillerGame.constructor and Cricket.CricketGame.constructor require distinct ids.
  Both games tell players apart by id (games/killer.js:70, games/cricket.js:40).
- `winner` is held as a seat index rather than the player object. The object's fields are
  updated after assignment (games/x01.js:77-78), so a copy would go stale.
- The subclasses' inheritance from `BaseGame` is modelled as composition: each game owns a
  `BaseGame` in its `base` field.
- Cricket players have no `eliminated` field, so the `filter` at games/cricket.js:68 keeps
  every player. Cricket.Judge looks at all of them.
- The single-file copy's Killer class (games.js:147-317) is not modelled separately. It is
  the rules of games/killer.js with the base-class methods inlined. Killer.KillerGame stands
  for both, and `Build` covers the two session differences.

## Rules as coded

The model follows the code in these places:

- Killer counts one hit per dart and takes one life per dart whatever the multiplier
  (games/killer.js:51, 74). A killer hitting their own number hurts nobody
  (games/killer.js:70).
- Cricket scores on the marks after adding, with the full multiplier
  (games/cricket.js:38-45). A treble thrown on one mark takes the marks from 1 to 4. Since
  4 > 3, that dart adds number × 3 to the score while another player has the number open.
- Square 62 is both a snake head and a ladder foot, and the snake is looked up first
  (games/snakes-ladders.js:21, 27, 53-63).
- `throwsInCurrentTurn` is zeroed only inside the callback (games/index.js:198-201). A
  second takeout before the callback runs schedules a second `nextPlayer`.
- Starting a game does not reset the integrator's counters (games/index.js:128-166).
