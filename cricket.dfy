/** Cricket (games/cricket.js): players close 20 down to 15 and the bull with three marks
    each; marks beyond three score while some opponent still has the number open. */
module Cricket {
  import opened Wrappers
  import opened Segments
  import opened Base

  datatype CricketPlayer = CricketPlayer(id: int, name: string, marks: map<int, int>, score: int)

  /** The numbers in play, 25 being the bull. */
  const Numbers: seq<int> := [20, 19, 18, 17, 16, 15, 25]

  /** A new player's marks: nothing on any number. */
  const NoMarks: map<int, int> := map[20 := 0, 19 := 0, 18 := 0, 17 := 0, 16 := 0, 15 := 0, 25 := 0]

  const MarksCap := 6

  /** Every number in play has a mark count, between none and the cap. */
  ghost predicate MarksInRange(m: map<int, int>)
  {
    forall n :: n in Numbers ==> n in m && 0 <= m[n] <= MarksCap
  }

  /** What Cricket keeps fixed: distinct ids (the open-number test compares ids) and marks in range. */
  ghost predicate WellFormed(t: Table<CricketPlayer>)
  {
    && t.Valid()
    && (forall i, j :: 0 <= i < j < |t.players| ==> t.players[i].id != t.players[j].id)
    && (forall i :: 0 <= i < |t.players| ==> MarksInRange(t.players[i].marks))
  }

  ghost predicate Started(t: Table<CricketPlayer>, roster: seq<SetupPlayer>)
  {
    && t == Table(t.players, 0, false, None)
    && |t.players| == |roster|
    && forall i :: 0 <= i < |roster| ==>
         t.players[i] == CricketPlayer(roster[i].id, roster[i].name, NoMarks, 0)
  }

  /** `players.some(...)`: a player other than `selfId` has `n` still open (under three marks). */
  predicate OthersOpen(ps: seq<CricketPlayer>, selfId: int, n: int)
  {
    exists j :: 0 <= j < |ps| && ps[j].id != selfId && n in ps[j].marks && ps[j].marks[n] < 3
  }

  /** `numbers.every(...)`: the player has three or more marks on every number. */
  predicate AllClosed(p: CricketPlayer)
  {
    forall n :: n in Numbers ==> n in p.marks && p.marks[n] >= 3
  }

  /** `Math.max` over the players' scores. */
  function MaxScore(ps: seq<CricketPlayer>): (m: int)
    requires |ps| >= 1
    ensures forall i :: 0 <= i < |ps| ==> ps[i].score <= m
    ensures exists i :: 0 <= i < |ps| && ps[i].score == m
  {
    if |ps| == 1 then ps[0].score
    else
      var rest := MaxScore(ps[1..]);
      assert forall i :: 1 <= i < |ps| ==> ps[i] == ps[1..][i - 1];
      if ps[0].score > rest then ps[0].score else rest
  }

  /** The test inside `checkWinner`'s loop: all closed and not behind anybody. */
  predicate IsChampion(ps: seq<CricketPlayer>, i: nat)
    requires i < |ps|
  {
    AllClosed(ps[i]) && ps[i].score >= MaxScore(ps)
  }

  /** The first champion at or after seat `from`, if any. */
  function FirstChampion(ps: seq<CricketPlayer>, from: nat): (r: Option<nat>)
    requires from <= |ps|
    decreases |ps| - from
    ensures r.Some? ==> from <= r.value < |ps| && IsChampion(ps, r.value)
    ensures forall k: nat :: from <= k < |ps| && (r.None? || k < r.value) ==> !IsChampion(ps, k)
  {
    if from == |ps| then None
    else if IsChampion(ps, from) then Some(from)
    else FirstChampion(ps, from + 1)
  }

  /** `checkWinner`: the game ends, won by the first champion in seat order, if there is one. */
  function Judge(t: Table<CricketPlayer>): (r: Table<CricketPlayer>)
    requires t.Valid()
    ensures r.Valid() && r.players == t.players && r.current == t.current
  {
    match FirstChampion(t.players, 0)
    case Some(i) => t.(gameOver := true, winner := Some(i))
    case None => t
  }

  /** The part of `processThrow` before `checkWinner`: the marks added, the extra marks
      scored while another player has the number open, and the cap applied. */
  function Mark(t: Table<CricketPlayer>, segment: Segment): (r: Table<CricketPlayer>)
    requires WellFormed(t) && segment.number in Numbers
    ensures WellFormed(r)
    ensures r.current == t.current && r.gameOver == t.gameOver && r.winner == t.winner
    ensures |r.players| == |t.players|
    ensures forall j :: 0 <= j < |t.players| && j != t.current ==> r.players[j] == t.players[j]
    ensures r.players[t.current].score >= t.players[t.current].score
  {
    var c := t.current;
    var p := t.players[c];
    var n := segment.number;
    var m := segment.multiplier;
    var added := p.marks[n] + m;
    var ps := t.players[c := p.(marks := p.marks[n := added])];
    var score := if added > 3 && OthersOpen(ps, p.id, n) then p.score + n * m else p.score;
    var capped := if added > MarksCap then MarksCap else added;
    t.(players := t.players[c := p.(marks := p.marks[n := capped], score := score)])
  }

  /** `processThrow`. */
  function ApplyThrow(t: Table<CricketPlayer>, segment: Segment): (r: Table<CricketPlayer>)
    requires WellFormed(t)
    ensures WellFormed(r)
    ensures r.current == t.current && |r.players| == |t.players|
    ensures t.gameOver ==> r == t
  {
    if t.gameOver || segment.number !in Numbers then t
    else Judge(Mark(t, segment))
  }

  /** `nextPlayer`. */
  function PassTurn(t: Table<CricketPlayer>): (r: Table<CricketPlayer>)
    requires WellFormed(t)
    ensures WellFormed(r)
  {
    if t.gameOver then t else Rotate(t)
  }

  /** The state Cricket keeps: the game is over exactly when there is a winner, and the
      winner is the first champion of the table. */
  ghost predicate InPlay(t: Table<CricketPlayer>)
  {
    && WellFormed(t)
    && (t.gameOver <==> t.winner.Some?)
    && (t.winner.Some? ==> FirstChampion(t.players, 0) == t.winner)
  }

  // ---------------------------------------------------------------- properties

  lemma StartedInPlay(t: Table<CricketPlayer>, roster: seq<SetupPlayer>)
    requires Started(t, roster) && |roster| >= 1 && DistinctIds(roster)
    ensures InPlay(t)
  {
    assert MarksInRange(NoMarks);
  }

  /** Being a champion means: every number closed and no player ahead. */
  lemma ChampionExactly(ps: seq<CricketPlayer>, i: nat)
    requires i < |ps|
    ensures IsChampion(ps, i) <==>
      AllClosed(ps[i]) && forall j :: 0 <= j < |ps| ==> ps[j].score <= ps[i].score
  {
  }

  /** A dart outside 20..15 and the bull changes nothing. */
  lemma OtherNumbersIgnored(t: Table<CricketPlayer>, segment: Segment)
    requires WellFormed(t) && segment.number !in Numbers
    ensures ApplyThrow(t, segment) == t
  {
  }

  /** A dart on a number in play adds the multiplier to the thrower's marks on that number,
      capped at six; nobody else's marks change. */
  lemma MarksRule(t: Table<CricketPlayer>, segment: Segment)
    requires WellFormed(t) && !t.gameOver && segment.number in Numbers
    ensures var r := ApplyThrow(t, segment); var c := t.current; var n := segment.number;
      && r.players[c].marks == t.players[c].marks[n := Min(t.players[c].marks[n] + segment.multiplier, MarksCap)]
      && forall j :: 0 <= j < |t.players| && j != c ==> r.players[j] == t.players[j]
  {
  }

  /** The thrower scores number times multiplier exactly when the marks, after adding, pass
      three and some other seat still has the number open; otherwise the score stays. */
  lemma ScoringRule(t: Table<CricketPlayer>, segment: Segment)
    requires WellFormed(t) && !t.gameOver && segment.number in Numbers
    ensures var r := ApplyThrow(t, segment); var c := t.current; var n := segment.number;
      var m := segment.multiplier;
      r.players[c].score ==
        if t.players[c].marks[n] + m > 3 &&
           (exists j :: 0 <= j < |t.players| && j != c && t.players[j].marks[n] < 3)
        then t.players[c].score + n * m
        else t.players[c].score
  {
    var c := t.current;
    var p := t.players[c];
    var n := segment.number;
    var ps := t.players[c := p.(marks := p.marks[n := p.marks[n] + segment.multiplier])];
    OthersOpenExactly(t, ps, n);
    assert ApplyThrow(t, segment).players == Mark(t, segment).players;
  }

  /** The open-number test, run on the list after the thrower's marks are added, looks at the
      other seats only. */
  lemma OthersOpenExactly(t: Table<CricketPlayer>, ps: seq<CricketPlayer>, n: int)
    requires WellFormed(t) && n in Numbers && |ps| == |t.players|
    requires ps[t.current].id == t.players[t.current].id
    requires forall j :: 0 <= j < |t.players| && j != t.current ==> ps[j] == t.players[j]
    ensures OthersOpen(ps, t.players[t.current].id, n) <==>
              exists j :: 0 <= j < |t.players| && j != t.current && t.players[j].marks[n] < 3
  {
    var c := t.current;
    if exists j :: 0 <= j < |t.players| && j != c && t.players[j].marks[n] < 3 {
      var j :| 0 <= j < |t.players| && j != c && t.players[j].marks[n] < 3;
      assert ps[j] == t.players[j];
    }
    if OthersOpen(ps, t.players[c].id, n) {
      var j :| 0 <= j < |ps| && ps[j].id != t.players[c].id && n in ps[j].marks && ps[j].marks[n] < 3;
      assert j != c;
    }
  }

  /** No throw ever lowers a score. */
  lemma ScoresNeverDecrease(t: Table<CricketPlayer>, segment: Segment)
    requires WellFormed(t)
    ensures var r := ApplyThrow(t, segment);
      forall i :: 0 <= i < |t.players| ==> r.players[i].score >= t.players[i].score
  {
    if !t.gameOver && segment.number in Numbers {
      ScoringRule(t, segment);
    }
  }

  /** `checkWinner` ends the game exactly when some player is a champion, and then the
      winner is the first champion in seat order. */
  lemma JudgePicksFirstChampion(t: Table<CricketPlayer>)
    requires t.Valid()
    ensures var r := Judge(t);
      && (r.winner != t.winner ==> r.gameOver)
      && ((exists i: nat :: i < |t.players| && IsChampion(t.players, i)) ==>
            r.gameOver && r.winner.Some? && IsChampion(t.players, r.winner.value) &&
            forall k :: 0 <= k < r.winner.value ==> !IsChampion(t.players, k))
      && ((forall i: nat :: i < |t.players| ==> !IsChampion(t.players, i)) ==> r == t)
  {
  }

  lemma ThrowKeepsInPlay(t: Table<CricketPlayer>, segment: Segment)
    requires InPlay(t)
    ensures InPlay(ApplyThrow(t, segment))
  {
  }

  /** `nextPlayer` only moves the turn on, and only while the game runs. */
  lemma PassTurnRotates(t: Table<CricketPlayer>)
    requires InPlay(t)
    ensures InPlay(PassTurn(t))
    ensures PassTurn(t) == if t.gameOver then t else t.(current := NextIndex(t.current, |t.players|))
  {
  }

  class CricketGame {
    const base: BaseGame<CricketPlayer>

    ghost predicate Valid()
      reads this, base
    {
      WellFormed(base.State())
    }

    constructor (players: seq<SetupPlayer>)
      requires |players| >= 1 && DistinctIds(players)
      ensures Valid() && fresh(base)
      ensures Started(base.State(), players)
    {
      var seated := seq(|players|, i requires 0 <= i < |players| =>
        CricketPlayer(players[i].id, players[i].name, NoMarks, 0));
      assert MarksInRange(NoMarks);
      base := new BaseGame(seated);
    }

    method ProcessThrow(segment: Segment)
      requires Valid()
      modifies base
      ensures Valid()
      ensures base.State() == ApplyThrow(old(base.State()), segment)
    {
      if base.gameOver {
        return;
      }
      var c := base.currentPlayerIndex;
      var player := base.GetCurrentPlayer();
      var number := segment.number;
      var marks := segment.multiplier;
      if number !in Numbers {
        return;
      }
      ghost var t := base.State();
      var added := player.marks[number] + marks;
      base.players := base.players[c := player.(marks := player.marks[number := added])];
      ghost var open := OthersOpen(base.players, player.id, number);
      var score := player.score;
      if added > 3 {
        var othersHaveOpen := OthersOpen(base.players, player.id, number);
        if othersHaveOpen {
          score := score + number * marks;
        }
      }
      var capped := if added > MarksCap then MarksCap else added;
      base.players := base.players[c := player.(marks := player.marks[number := capped], score := score)];
      assert score == if added > 3 && open then player.score + number * marks else player.score;
      ghost var marked := Mark(t, segment);
      assert base.State() == marked;
      CheckWinner();
      assert ApplyThrow(t, segment) == Judge(marked);
    }

    /** The loop of `checkWinner`: the first player in seat order with every number closed
        and a score not below the highest wins. */
    method CheckWinner()
      requires base.Valid()
      modifies base
      ensures base.State() == Judge(old(base.State()))
    {
      var i := 0;
      while i < |base.players|
        invariant i <= |base.players|
        invariant base.State() == old(base.State())
        invariant FirstChampion(base.players, 0) == FirstChampion(base.players, i)
      {
        var player := base.players[i];
        var allClosed := AllClosed(player);
        if allClosed {
          var highestScore := MaxScore(base.players);
          if player.score >= highestScore {
            base.gameOver := true;
            base.winner := Some(i);
            return;
          }
        }
        i := i + 1;
      }
    }

    method NextPlayer()
      requires Valid()
      modifies base
      ensures Valid()
      ensures base.State() == PassTurn(old(base.State()))
    {
      if base.gameOver {
        return;
      }
      base.NextPlayerIndex();
    }
  }
}
