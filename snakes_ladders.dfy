/** Snakes & Ladders (games/snakes-ladders.js): each dart moves the thrower forward by its
    points on a 100-square board, then one snake or ladder may move them again. */
module SnakesLadders {
  import opened Wrappers
  import opened Segments
  import opened Base

  datatype SnakesPlayer = SnakesPlayer(id: int, name: string, position: int, totalScore: int, darts: int)

  const BoardSize := 100

  /** Snake heads to tails. */
  const Snakes: map<int, int> :=
    map[98 := 28, 95 := 24, 92 := 51, 83 := 19, 73 := 1, 69 := 33, 64 := 36,
        62 := 18, 54 := 31, 48 := 9, 37 := 3, 17 := 7]

  /** Ladder feet to tops. */
  const Ladders: map<int, int> :=
    map[4 := 25, 13 := 46, 20 := 70, 27 := 84, 33 := 49, 40 := 77,
        50 := 91, 62 := 96, 71 := 89, 79 := 81]

  ghost predicate OnBoard(p: SnakesPlayer)
  {
    0 <= p.position <= BoardSize
  }

  /** Every player stands on the board, and a winner is the one who reached the last square. */
  ghost predicate WellFormed(t: Table<SnakesPlayer>)
  {
    && t.Valid()
    && (forall i :: 0 <= i < |t.players| ==> OnBoard(t.players[i]))
    && (t.winner.Some? ==> t.gameOver && t.players[t.winner.value].position == BoardSize)
  }

  ghost predicate Started(t: Table<SnakesPlayer>, roster: seq<SetupPlayer>)
  {
    && t == Table(t.players, 0, false, None)
    && |t.players| == |roster|
    && forall i :: 0 <= i < |roster| ==>
         t.players[i] == SnakesPlayer(roster[i].id, roster[i].name, 0, 0, 0)
  }

  /** The square after the one lookup the rules make: a snake first, else a ladder, else stay. */
  function Jump(square: int): int
  {
    if square in Snakes then Snakes[square]
    else if square in Ladders then Ladders[square]
    else square
  }

  /** Where a dart worth `score` takes a player standing on `position`. */
  function Move(position: int, score: int): int
  {
    Jump(Min(position + score, BoardSize))
  }

  /** `processThrow`. */
  function ApplyThrow(t: Table<SnakesPlayer>, segment: Segment): (r: Table<SnakesPlayer>)
    requires WellFormed(t)
    ensures WellFormed(r)
    ensures r.current == t.current && |r.players| == |t.players|
  {
    if t.gameOver then t
    else
      var c := t.current;
      var p := t.players[c];
      var score := Score(segment);
      var moved := p.(totalScore := p.totalScore + score, darts := p.darts + 1,
                      position := Move(p.position, score));
      JumpStaysBelowEnd(Min(p.position + score, BoardSize));
      var u := t.(players := t.players[c := moved]);
      if moved.position >= BoardSize then u.(gameOver := true, winner := Some(c)) else u
  }

  /** `nextPlayer`. */
  function PassTurn(t: Table<SnakesPlayer>): (r: Table<SnakesPlayer>)
    requires WellFormed(t)
    ensures WellFormed(r)
  {
    if t.gameOver then t else Rotate(t)
  }

  // ---------------------------------------------------------------- properties

  /** Every snake leads down and every ladder up, and no square of either table is the last
      one or beyond: so a jump never reaches the last square. */
  lemma TablesPointInside()
    ensures forall k :: k in Snakes ==> 0 < Snakes[k] < k < BoardSize
    ensures forall k :: k in Ladders ==> 0 < k < Ladders[k] < BoardSize
  {
  }

  /** A jump keeps a square on the board below the last square, and leaves the last square alone. */
  lemma JumpStaysBelowEnd(square: int)
    ensures 0 <= square < BoardSize ==> 0 <= Jump(square) < BoardSize
    ensures square == BoardSize ==> Jump(square) == BoardSize
  {
    TablesPointInside();
  }

  lemma StartedWellFormed(t: Table<SnakesPlayer>, roster: seq<SetupPlayer>)
    requires Started(t, roster) && |roster| >= 1
    ensures WellFormed(t)
  {
  }

  /** A dart adds its points to the thrower's total and one to their dart count, and moves
      them to the jump of `min(position + points, 100)`; nobody else changes. */
  lemma ThrowMoves(t: Table<SnakesPlayer>, segment: Segment)
    requires WellFormed(t) && !t.gameOver
    ensures var r := ApplyThrow(t, segment); var c := t.current; var p := t.players[c];
      var clamped := if p.position + segment.number * segment.multiplier < 100
                     then p.position + segment.number * segment.multiplier else 100;
      && r.players[c].totalScore == p.totalScore + segment.number * segment.multiplier
      && r.players[c].darts == p.darts + 1
      && r.players[c].position == Jump(clamped)
      && (forall j :: 0 <= j < |t.players| && j != c ==> r.players[j] == t.players[j])
  {
  }

  /** A dart wins exactly when it would carry the player to square 100 or past it, and then
      the player stands on 100; otherwise the game goes on. */
  lemma WinExactly(t: Table<SnakesPlayer>, segment: Segment)
    requires WellFormed(t) && !t.gameOver
    ensures var r := ApplyThrow(t, segment); var c := t.current;
      && (r.gameOver <==> t.players[c].position + Score(segment) >= BoardSize)
      && (r.gameOver ==> r.winner == Some(c) && r.players[c].position == BoardSize)
      && (!r.gameOver ==> r.winner == t.winner && r.players[c].position < BoardSize)
  {
    JumpStaysBelowEnd(Min(t.players[t.current].position + Score(segment), BoardSize));
  }

  /** Square 62 is both a snake head and a ladder foot: the snake is looked up first. */
  lemma SnakeBeforeLadder()
    ensures 62 in Snakes && 62 in Ladders
    ensures Jump(62) == 18
  {
  }

  /** One jump per dart: 69 slides to 33, which is a ladder foot, and stays there. */
  lemma NoChaining()
    ensures Jump(69) == 33 && 33 in Ladders
    ensures Move(60, 9) == 33
  {
  }

  /** A dart landing past a snake head on the way to 100 is clamped first: 95 plus 3 is
      square 98, whose snake sends the player down to 28. */
  lemma ClampThenSnake()
    ensures Move(95, 3) == 28 && Move(95, 60) == BoardSize
  {
  }

  /** Once the game is over, throws and turn changes do nothing; `nextPlayer` otherwise only
      moves the turn on. */
  lemma PassTurnRotates(t: Table<SnakesPlayer>, segment: Segment)
    requires WellFormed(t)
    ensures t.gameOver ==> ApplyThrow(t, segment) == t && PassTurn(t) == t
    ensures !t.gameOver ==> PassTurn(t) == t.(current := NextIndex(t.current, |t.players|))
  {
  }

  class SnakesAndLaddersGame {
    const base: BaseGame<SnakesPlayer>

    ghost predicate Valid()
      reads this, base
    {
      WellFormed(base.State())
    }

    constructor (players: seq<SetupPlayer>)
      requires |players| >= 1
      ensures Valid() && fresh(base)
      ensures Started(base.State(), players)
    {
      var seated := seq(|players|, i requires 0 <= i < |players| =>
        SnakesPlayer(players[i].id, players[i].name, 0, 0, 0));
      base := new BaseGame(seated);
    }

    method ProcessThrow(segment: Segment)
      requires Valid()
      modifies base
      ensures Valid()
      ensures base.State() == ApplyThrow(old(base.State()), segment)
    {
      if base.gameOver {
        return;
      }
      var c := base.currentPlayerIndex;
      var player := base.GetCurrentPlayer();
      var score := segment.number * segment.multiplier;
      player := player.(totalScore := player.totalScore + score);
      player := player.(darts := player.darts + 1);
      player := player.(position := Min(player.position + score, BoardSize));
      if player.position in Snakes {
        player := player.(position := Snakes[player.position]);
      } else if player.position in Ladders {
        player := player.(position := Ladders[player.position]);
      }
      base.players := base.players[c := player];
      if player.position >= BoardSize {
        base.gameOver := true;
        base.winner := Some(c);
      }
    }

    method NextPlayer()
      requires Valid()
      modifies base
      ensures Valid()
      ensures base.State() == PassTurn(old(base.State()))
    {
      if base.gameOver {
        return;
      }
      base.NextPlayerIndex();
    }
  }
}
