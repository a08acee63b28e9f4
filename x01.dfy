/** X01 (games/x01.js): every player counts down from a starting score; a turn's darts are
    added up as they land and only taken off at the end of the turn, unless the turn busts. */
module X01 {
  import opened Wrappers
  import opened Segments
  import opened Base

  datatype X01Player = X01Player(id: int, name: string, score: int, darts: int,
                                 highestScore: int, checkouts: int, eliminated: bool)

  /** One entry of `currentTurnDarts`: the segment and the points it was worth. */
  datatype Dart = Dart(segment: Segment, score: int)

  /** Everything an X01 game holds: the shared table plus the turn accumulator. */
  datatype Turn = Turn(table: Table<X01Player>, turnScore: int, turnDarts: seq<Dart>)

  const DefaultStartingScore := 301

  /** The points of the darts thrown so far this turn. */
  function TurnTotal(ds: seq<Dart>): int
  {
    if ds == [] then 0 else TurnTotal(ds[..|ds| - 1]) + ds[|ds| - 1].score
  }

  /** Every recorded dart is worth what its segment says. */
  ghost predicate DartsScored(ds: seq<Dart>)
  {
    forall k :: 0 <= k < |ds| ==> ds[k].score == Score(ds[k].segment)
  }

  /** The accumulator is in step with its darts: `currentTurnScore` is their sum. */
  ghost predicate WellFormed(s: Turn)
  {
    s.table.Valid() && DartsScored(s.turnDarts) && s.turnScore == TurnTotal(s.turnDarts)
  }

  /** A turn's total is the sum of its darts in any split: adding darts only adds points. */
  lemma {:induction false} TurnTotalSplit(a: seq<Dart>, b: seq<Dart>)
    ensures TurnTotal(a + b) == TurnTotal(a) + TurnTotal(b)
    decreases |b|
  {
    if b == [] {
      assert a + b == a;
    } else {
      var b' := b[..|b| - 1];
      assert (a + b)[..|a + b| - 1] == a + b';
      assert (a + b)[|a + b| - 1] == b[|b| - 1];
      TurnTotalSplit(a, b');
    }
  }

  /** Darts never take points off: a running total is never negative. */
  lemma {:induction false} TurnTotalNonNegative(ds: seq<Dart>)
    requires DartsScored(ds)
    ensures TurnTotal(ds) >= 0
    ensures TurnTotal(ds) <= 75 * |ds|
  {
    if ds != [] {
      var front := ds[..|ds| - 1];
      assert DartsScored(front) by {
        forall k | 0 <= k < |front| ensures front[k].score == Score(front[k].segment) {
          assert front[k] == ds[k];
        }
      }
      TurnTotalNonNegative(front);
    }
  }

  /** The table a new X01 game starts from: everyone on the starting score, no darts,
      no statistics, and an empty accumulator. */
  ghost predicate Started(s: Turn, roster: seq<SetupPlayer>, startingScore: int)
  {
    && s.table == Table(s.table.players, 0, false, None)
    && s.turnScore == 0 && s.turnDarts == []
    && |s.table.players| == |roster|
    && forall i :: 0 <= i < |roster| ==>
         s.table.players[i] == X01Player(roster[i].id, roster[i].name, startingScore, 0, 0, 0, false)
  }

  /** `processThrow`: record the dart and count it toward the turn and the player. */
  function ApplyThrow(s: Turn, segment: Segment): (r: Turn)
    requires WellFormed(s)
    ensures WellFormed(r)
  {
    if s.table.gameOver then s
    else
      var c := s.table.current;
      var p := s.table.players[c];
      var points := Score(segment);
      var r := Turn(s.table.(players := s.table.players[c := p.(darts := p.darts + 1)]),
                    s.turnScore + points, s.turnDarts + [Dart(segment, points)]);
      assert r.turnDarts[..|r.turnDarts| - 1] == s.turnDarts;
      r
  }

  /** The guard of the bust branch: overshooting zero, or, under double-out, reaching zero
      with a last dart that is not a double (an empty turn has no last dart, which counts
      as not a double). */
  predicate IsBust(newScore: int, doubleOut: bool, ds: seq<Dart>)
  {
    newScore < 0 || (doubleOut && newScore == 0 && !(|ds| > 0 && ds[|ds| - 1].segment.multiplier == 2))
  }

  /** Clear the accumulator and hand the turn to the next seat. */
  function EndTurn(t: Table<X01Player>): (r: Turn)
    requires t.Valid()
    ensures WellFormed(r)
  {
    Turn(Rotate(t), 0, [])
  }

  /** `nextPlayer`: bust, commit, or commit and check out. */
  function PassTurn(s: Turn, doubleOut: bool): (r: Turn)
    requires WellFormed(s)
    ensures WellFormed(r)
  {
    if s.table.gameOver then s
    else
      var c := s.table.current;
      var p := s.table.players[c];
      var newScore := p.score - s.turnScore;
      if IsBust(newScore, doubleOut, s.turnDarts) then EndTurn(s.table)
      else
        var committed := p.(score := newScore,
                            highestScore := if s.turnScore > p.highestScore then s.turnScore else p.highestScore);
        if newScore == 0 then
          s.(table := s.table.(players := s.table.players[c := committed.(checkouts := committed.checkouts + 1)],
                               gameOver := true, winner := Some(c)))
        else EndTurn(s.table.(players := s.table.players[c := committed]))
  }

  /** The state X01 keeps: the accumulator in step, no score below zero, and the game over
      exactly when somebody has checked out, that player being on zero. */
  ghost predicate InPlay(s: Turn)
  {
    && WellFormed(s)
    && (forall i :: 0 <= i < |s.table.players| ==> s.table.players[i].score >= 0)
    && (s.table.gameOver <==> s.table.winner.Some?)
    && (s.table.winner.Some? ==> s.table.players[s.table.winner.value].score == 0)
  }

  // ---------------------------------------------------------------- properties

  lemma StartedInPlay(s: Turn, roster: seq<SetupPlayer>, startingScore: int)
    requires Started(s, roster, startingScore) && |roster| >= 1 && startingScore >= 0
    ensures InPlay(s)
  {
  }

  /** A dart goes onto the accumulator and the thrower's dart count, and nowhere else:
      the score, the other players and the turn order are untouched. */
  lemma ThrowAccumulates(s: Turn, segment: Segment)
    requires WellFormed(s) && !s.table.gameOver
    ensures var r := ApplyThrow(s, segment); var c := s.table.current;
      && r.turnDarts == s.turnDarts + [Dart(segment, segment.number * segment.multiplier)]
      && r.turnScore == TurnTotal(s.turnDarts) + segment.number * segment.multiplier
      && r.table.players[c] == s.table.players[c].(darts := s.table.players[c].darts + 1)
      && (forall i :: 0 <= i < |s.table.players| && i != c ==> r.table.players[i] == s.table.players[i])
      && r.table.current == c && r.table.gameOver == s.table.gameOver && r.table.winner == s.table.winner
  {
  }

  /** Across any number of throws, the accumulator equals the darts thrown since the turn
      began, whatever they were. */
  lemma ThrowsAddUp(s: Turn, more: seq<Dart>)
    requires WellFormed(s) && DartsScored(more)
    ensures TurnTotal(s.turnDarts + more) == s.turnScore + TurnTotal(more)
    ensures TurnTotal(s.turnDarts + more) >= s.turnScore
  {
    TurnTotalSplit(s.turnDarts, more);
    TurnTotalNonNegative(more);
  }

  /** Bust, both directions: without double-out a turn busts exactly when it overshoots;
      with double-out, also when it lands on zero without finishing on a double. */
  lemma BustExactly(s: Turn, doubleOut: bool)
    requires WellFormed(s) && !s.table.gameOver
    ensures var p := s.table.players[s.table.current]; var ds := s.turnDarts;
      IsBust(p.score - s.turnScore, doubleOut, ds) <==>
        (s.turnScore > p.score ||
         (doubleOut && s.turnScore == p.score && (ds == [] || ds[|ds| - 1].segment.multiplier != 2)))
  {
  }

  /** A bust leaves every player as they were, clears the accumulator and moves on. */
  lemma BustKeepsScore(s: Turn, doubleOut: bool)
    requires WellFormed(s) && !s.table.gameOver
    requires IsBust(s.table.players[s.table.current].score - s.turnScore, doubleOut, s.turnDarts)
    ensures var r := PassTurn(s, doubleOut);
      && r.table.players == s.table.players
      && r.table.current == NextIndex(s.table.current, |s.table.players|)
      && r.turnScore == 0 && r.turnDarts == []
      && !r.table.gameOver && r.table.winner == s.table.winner
  {
  }

  /** A turn that does not bust takes its total off the score, which therefore never rises
      and never drops below zero, and raises the best turn to the turn's total if higher. */
  lemma CommitLowersScore(s: Turn, doubleOut: bool)
    requires WellFormed(s) && !s.table.gameOver
    requires !IsBust(s.table.players[s.table.current].score - s.turnScore, doubleOut, s.turnDarts)
    ensures var r := PassTurn(s, doubleOut); var c := s.table.current; var p := s.table.players[c];
      && r.table.players[c].score == p.score - TurnTotal(s.turnDarts)
      && 0 <= r.table.players[c].score <= p.score
      && r.table.players[c].highestScore == (if s.turnScore > p.highestScore then s.turnScore else p.highestScore)
      && r.table.players[c].highestScore >= p.highestScore
      && (forall i :: 0 <= i < |s.table.players| && i != c ==> r.table.players[i] == s.table.players[i])
  {
    TurnTotalNonNegative(s.turnDarts);
  }

  /** Reaching exactly zero checks out: the game is over and won by the thrower, whose
      checkout count goes up by one; the turn does not pass and the accumulator stays. */
  lemma CheckoutEndsGame(s: Turn, doubleOut: bool)
    requires WellFormed(s) && !s.table.gameOver
    requires s.turnScore == s.table.players[s.table.current].score
    requires !doubleOut || (|s.turnDarts| > 0 && s.turnDarts[|s.turnDarts| - 1].segment.multiplier == 2)
    ensures var r := PassTurn(s, doubleOut); var c := s.table.current;
      && r.table.gameOver && r.table.winner == Some(c)
      && r.table.players[c].score == 0
      && r.table.players[c].checkouts == s.table.players[c].checkouts + 1
      && r.table.current == c
      && r.turnScore == s.turnScore && r.turnDarts == s.turnDarts
  {
  }

  /** Every end of turn other than a checkout clears the accumulator and advances the seat. */
  lemma OtherTurnsRotate(s: Turn, doubleOut: bool)
    requires WellFormed(s) && !s.table.gameOver
    ensures var r := PassTurn(s, doubleOut);
      !r.table.gameOver ==>
        r.table.current == NextIndex(s.table.current, |s.table.players|) &&
        r.turnScore == 0 && r.turnDarts == []
  {
  }

  /** Once the game is over, throws and turn changes do nothing. */
  lemma FrozenAfterGameOver(s: Turn, doubleOut: bool, segment: Segment)
    requires WellFormed(s) && s.table.gameOver
    ensures ApplyThrow(s, segment) == s && PassTurn(s, doubleOut) == s
  {
  }

  lemma ThrowKeepsInPlay(s: Turn, segment: Segment)
    requires InPlay(s)
    ensures InPlay(ApplyThrow(s, segment))
  {
  }

  lemma PassTurnKeepsInPlay(s: Turn, doubleOut: bool)
    requires InPlay(s)
    ensures InPlay(PassTurn(s, doubleOut))
  {
    if !s.table.gameOver {
      var p := s.table.players[s.table.current];
      if !IsBust(p.score - s.turnScore, doubleOut, s.turnDarts) {
        CommitLowersScore(s, doubleOut);
      }
    }
  }

  class X01Game {
    const base: BaseGame<X01Player>
    const startingScore: int
    const doubleOut: bool
    var currentTurnScore: int
    var currentTurnDarts: seq<Dart>

    ghost function State(): Turn
      reads this, base
    {
      Turn(base.State(), currentTurnScore, currentTurnDarts)
    }

    ghost predicate Valid()
      reads this, base
    {
      WellFormed(State())
    }

    /** A falsy starting score (0 or NaN) falls back to 301. */
    constructor (players: seq<SetupPlayer>, startingScore: Option<int>, doubleOut: bool)
      requires |players| >= 1
      ensures Valid() && fresh(base)
      ensures this.startingScore == OrDefault(startingScore, DefaultStartingScore)
      ensures this.doubleOut == doubleOut
      ensures Started(State(), players, this.startingScore)
    {
      var score := OrDefault(startingScore, DefaultStartingScore);
      this.startingScore := score;
      this.doubleOut := doubleOut;
      var seated := seq(|players|, i requires 0 <= i < |players| =>
        X01Player(players[i].id, players[i].name, score, 0, 0, 0, false));
      base := new BaseGame(seated);
      currentTurnScore := 0;
      currentTurnDarts := [];
    }

    method ProcessThrow(segment: Segment)
      requires Valid()
      modifies this, base
      ensures Valid()
      ensures State() == ApplyThrow(old(State()), segment)
    {
      if base.gameOver {
        return;
      }
      var c := base.currentPlayerIndex;
      var player := base.GetCurrentPlayer();
      var score := segment.number * segment.multiplier;
      currentTurnDarts := currentTurnDarts + [Dart(segment, score)];
      currentTurnScore := currentTurnScore + score;
      base.players := base.players[c := player.(darts := player.darts + 1)];
    }

    method NextPlayer()
      requires Valid()
      modifies this, base
      ensures Valid()
      ensures State() == PassTurn(old(State()), doubleOut)
    {
      if base.gameOver {
        return;
      }
      var c := base.currentPlayerIndex;
      var player := base.GetCurrentPlayer();
      var newScore := player.score - currentTurnScore;
      var lastIsDouble := |currentTurnDarts| > 0 && currentTurnDarts[|currentTurnDarts| - 1].segment.multiplier == 2;
      if newScore < 0 || (doubleOut && newScore == 0 && !lastIsDouble) {
        // bust: the score stays
      } else {
        player := player.(score := newScore);
        if currentTurnScore > player.highestScore {
          player := player.(highestScore := currentTurnScore);
        }
        if player.score == 0 {
          base.gameOver := true;
          base.winner := Some(c);
          player := player.(checkouts := player.checkouts + 1);
          base.players := base.players[c := player];
          return;
        }
        base.players := base.players[c := player];
      }
      currentTurnScore := 0;
      currentTurnDarts := [];
      base.NextPlayerIndex();
    }
  }
}
