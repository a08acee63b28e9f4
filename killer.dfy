/** Killer (games/killer.js; the same class is duplicated in games.js:147-317).
    Each player is dealt a board number; hitting it makes them a killer, and a killer
    who hits an opponent's number takes one of that opponent's lives. */
module Killer {
  import opened Wrappers
  import opened Segments
  import opened Base

  datatype KillerPlayer = KillerPlayer(id: int, name: string, number: int, lives: int,
                                       isKiller: bool, hitsOnOwnNumber: int, eliminated: bool)

  /** The twenty board numbers in the order the shuffle starts from. */
  const BoardNumbers: seq<int> := [20, 1, 18, 4, 13, 6, 10, 15, 2, 17, 3, 19, 7, 16, 8, 11, 14, 9, 12, 5]

  const DefaultLives := 3
  const DefaultHitsToKiller := 1

  /** What Killer keeps fixed for the whole game: ids and dealt numbers are pairwise distinct. */
  ghost predicate WellFormed(t: Table<KillerPlayer>)
  {
    t.Valid() &&
    forall i, j :: 0 <= i < j < |t.players| ==>
      t.players[i].id != t.players[j].id && t.players[i].number != t.players[j].number
  }

  /** The table a new Killer game starts from, for the given roster and lives. */
  ghost predicate Started(t: Table<KillerPlayer>, roster: seq<SetupPlayer>, lives: int)
  {
    && t.current == 0 && !t.gameOver && t.winner == None
    && |t.players| == |roster|
    && forall i :: 0 <= i < |roster| ==>
         && t.players[i].id == roster[i].id && t.players[i].name == roster[i].name
         && 1 <= t.players[i].number <= 20
         && t.players[i].lives == lives && !t.players[i].isKiller
         && t.players[i].hitsOnOwnNumber == 0 && !t.players[i].eliminated
  }

  lemma BoardNumbersDistinct()
    ensures Distinct(BoardNumbers)
  {
    forall i, j | 0 <= i < j < |BoardNumbers| ensures BoardNumbers[i] != BoardNumbers[j] {
      assert BoardNumbers[i] in {BoardNumbers[i]};
    }
  }

  /** The deck the shuffle deals from holds each of 1..20 exactly once. */
  ghost predicate IsDeck(numbers: seq<int>)
  {
    forall x :: multiset(numbers)[x] == if 1 <= x <= 20 then 1 else 0
  }

  lemma BoardNumbersAreDeck()
    ensures IsDeck(BoardNumbers)
  {
    BoardNumbersDistinct();
    DistinctCounts(BoardNumbers);
    BoardNumbersRange();
  }

  /** The board numbers are exactly 1..20. */
  lemma BoardNumbersRange()
    ensures forall x :: x in BoardNumbers <==> 1 <= x <= 20
  {
  }

  /** `shuffleNumbers`: the twenty board numbers in a shuffled order. */
  method ShuffleNumbers() returns (numbers: seq<int>)
    ensures |numbers| == 20 && IsDeck(numbers)
  {
    var a := new int[|BoardNumbers|](k requires 0 <= k < |BoardNumbers| => BoardNumbers[k]);
    assert a[..] == BoardNumbers;
    FisherYates(a);
    numbers := a[..];
    BoardNumbersAreDeck();
  }

  /** The Fisher-Yates loop, in place. `Math.random` is replaced by an arbitrary choice of
      the swap index in [0, i], so the result is an arbitrary permutation of the input. */
  method FisherYates(a: array<int>)
    modifies a
    ensures multiset(a[..]) == old(multiset(a[..]))
  {
    var i := a.Length - 1;
    while i > 0
      invariant i < a.Length
      invariant multiset(a[..]) == old(multiset(a[..]))
    {
      var j :| 0 <= j <= i;
      a[i], a[j] := a[j], a[i];
      i := i - 1;
    }
  }

  /** The test `find` applies: the player holds `number`, is still in, and is not the thrower. */
  predicate IsTarget(p: KillerPlayer, number: int, selfId: int)
  {
    p.number == number && !p.eliminated && p.id != selfId
  }

  /** `players.find(...)` from index `from`: the first target, if any. */
  function FindTarget(ps: seq<KillerPlayer>, number: int, selfId: int, from: nat): (r: Option<nat>)
    requires from <= |ps|
    decreases |ps| - from
    ensures r.Some? ==> from <= r.value < |ps| && IsTarget(ps[r.value], number, selfId)
    ensures forall k :: from <= k < |ps| && (r.None? || k < r.value) ==> !IsTarget(ps[k], number, selfId)
  {
    if from == |ps| then None
    else if IsTarget(ps[from], number, selfId) then Some(from)
    else FindTarget(ps, number, selfId, from + 1)
  }

  /** `players.filter(p => !p.eliminated)`, as the ascending list of seats still in. */
  function Survivors(ps: seq<KillerPlayer>, from: nat): (r: seq<nat>)
    requires from <= |ps|
    decreases |ps| - from
    ensures forall k :: 0 <= k < |r| ==> from <= r[k] < |ps| && !ps[r[k]].eliminated
    ensures forall i :: from <= i < |ps| && !ps[i].eliminated ==> i in r
    ensures forall k, l :: 0 <= k < l < |r| ==> r[k] < r[l]
  {
    if from == |ps| then []
    else if !ps[from].eliminated then [from] + Survivors(ps, from + 1)
    else Survivors(ps, from + 1)
  }

  /** Seat `i` is the only player not eliminated. */
  ghost predicate SoleSurvivor(ps: seq<KillerPlayer>, i: nat)
  {
    i < |ps| && !ps[i].eliminated && forall j :: 0 <= j < |ps| && j != i ==> ps[j].eliminated
  }

  /** Exactly one survivor is the same as a survivor list of length one. */
  lemma SurvivorsOfOne(ps: seq<KillerPlayer>)
    ensures |Survivors(ps, 0)| == 1 ==> SoleSurvivor(ps, Survivors(ps, 0)[0])
    ensures forall i: nat :: SoleSurvivor(ps, i) ==> Survivors(ps, 0) == [i]
  {
    forall i: nat | SoleSurvivor(ps, i) ensures Survivors(ps, 0) == [i] {
      SurvivorsOfSole(ps, i, 0);
    }
  }

  lemma {:induction false} SurvivorsOfSole(ps: seq<KillerPlayer>, i: nat, from: nat)
    requires from <= |ps| && SoleSurvivor(ps, i)
    decreases |ps| - from
    ensures Survivors(ps, from) == if from <= i then [i] else []
  {
    if from < |ps| {
      SurvivorsOfSole(ps, i, from + 1);
    }
  }

  /** `checkWinner`: the game ends, won by the last player standing, exactly when one remains. */
  function Judge(t: Table<KillerPlayer>): (r: Table<KillerPlayer>)
    requires t.Valid()
    ensures r.Valid() && r.players == t.players && r.current == t.current
    ensures forall i: nat :: SoleSurvivor(t.players, i) ==> r.gameOver && r.winner == Some(i)
    ensures (forall i: nat :: !SoleSurvivor(t.players, i)) ==> r == t
  {
    SurvivorsOfOne(t.players);
    var active := Survivors(t.players, 0);
    if |active| == 1 then t.(gameOver := true, winner := Some(active[0])) else t
  }

  /** `processThrow`: the effect of one dart. */
  function ApplyThrow(t: Table<KillerPlayer>, hitsToKiller: int, segment: Segment): (r: Table<KillerPlayer>)
    requires WellFormed(t)
    ensures WellFormed(r)
    ensures r.current == t.current && |r.players| == |t.players|
    ensures forall i :: 0 <= i < |t.players| ==>
              r.players[i].id == t.players[i].id && r.players[i].name == t.players[i].name &&
              r.players[i].number == t.players[i].number
    ensures t.gameOver ==> r == t
  {
    if t.gameOver then t
    else
      var c := t.current;
      var p := t.players[c];
      if segment.number == p.number && !p.isKiller then
        var hits := p.hitsOnOwnNumber + 1;
        t.(players := t.players[c := p.(hitsOnOwnNumber := hits,
                                        isKiller := if hits >= hitsToKiller then true else p.isKiller)])
      else if p.isKiller then
        match FindTarget(t.players, segment.number, p.id, 0)
        case Some(k) =>
          var q := t.players[k];
          var lives := q.lives - 1;
          Judge(t.(players := t.players[k := q.(lives := lives,
                                                eliminated := if lives <= 0 then true else q.eliminated)]))
        case None => t
      else t
  }

  /** The do-while of `nextPlayer`: the first step d in [from, n) that lands on a player
      still in, or n when every step before a full lap lands on an eliminated player. */
  function Gap(ps: seq<KillerPlayer>, start: nat, from: nat): (d: nat)
    requires start < |ps| && 1 <= from <= |ps|
    decreases |ps| - from
    ensures from <= d <= |ps|
    ensures forall e: nat :: from <= e < d ==> ps[Advance(start, |ps|, e)].eliminated
    ensures d < |ps| ==> !ps[Advance(start, |ps|, d)].eliminated
  {
    if from == |ps| then from
    else if !ps[Advance(start, |ps|, from)].eliminated then from
    else Gap(ps, start, from + 1)
  }

  /** `nextPlayer`: skip eliminated players; if a whole lap finds nobody else, the game is over
      (the index, having gone round n times, is back where it started). */
  function PassTurn(t: Table<KillerPlayer>): (r: Table<KillerPlayer>)
    requires WellFormed(t)
    ensures WellFormed(r)
    ensures r.players == t.players && r.winner == t.winner
    ensures t.gameOver ==> r == t
  {
    if t.gameOver then t
    else
      var n := |t.players|;
      var d := Gap(t.players, t.current, 1);
      if d >= n then t.(gameOver := true)
      else t.(current := Advance(t.current, n, d))
  }

  /** The state the rules keep while a game is running: the thrower is still in, somebody
      else is still in, and a winner is the one player left. */
  ghost predicate InPlay(t: Table<KillerPlayer>)
  {
    && WellFormed(t)
    && (!t.gameOver ==>
         !t.players[t.current].eliminated &&
         exists j :: 0 <= j < |t.players| && j != t.current && !t.players[j].eliminated)
    && (t.winner.Some? ==> t.gameOver && SoleSurvivor(t.players, t.winner.value))
  }

  // ---------------------------------------------------------------- properties

  lemma StartedInPlay(t: Table<KillerPlayer>, roster: seq<SetupPlayer>, lives: int)
    requires WellFormed(t) && Started(t, roster, lives) && |roster| >= 2
    ensures InPlay(t)
  {
    assert !t.players[1].eliminated;
  }

  /** A throw while the game is over changes nothing, and a throw leaves the turn where it is. */
  lemma ThrowAfterGameOver(t: Table<KillerPlayer>, hitsToKiller: int, segment: Segment)
    requires WellFormed(t) && t.gameOver
    ensures ApplyThrow(t, hitsToKiller, segment) == t
  {
  }

  /** A non-killer hitting their own number gains exactly one hit whatever the multiplier,
      becomes a killer exactly when the count reaches `hitsToKiller`, and nobody's lives change. */
  lemma OwnNumberCountsOne(t: Table<KillerPlayer>, hitsToKiller: int, segment: Segment)
    requires WellFormed(t) && !t.gameOver
    requires segment.number == t.players[t.current].number && !t.players[t.current].isKiller
    ensures var r := ApplyThrow(t, hitsToKiller, segment); var c := t.current;
      && r.players[c].hitsOnOwnNumber == t.players[c].hitsOnOwnNumber + 1
      && (r.players[c].isKiller <==> t.players[c].hitsOnOwnNumber + 1 >= hitsToKiller)
      && (forall i :: 0 <= i < |t.players| ==>
            r.players[i].lives == t.players[i].lives && r.players[i].eliminated == t.players[i].eliminated)
      && (forall i :: 0 <= i < |t.players| && i != c ==> r.players[i] == t.players[i])
      && r.gameOver == t.gameOver && r.winner == t.winner
  {
  }

  /** A killer hitting the number of an opponent still in takes exactly one life from that
      opponent (whatever the multiplier), eliminates them iff no life is left, leaves every
      other player as they were, and ends the game iff one player is left. */
  lemma KillerHitTakesOneLife(t: Table<KillerPlayer>, hitsToKiller: int, segment: Segment, k: nat)
    requires WellFormed(t) && !t.gameOver && t.players[t.current].isKiller
    requires k < |t.players| && k != t.current
    requires t.players[k].number == segment.number && !t.players[k].eliminated
    ensures var r := ApplyThrow(t, hitsToKiller, segment);
      && r.players[k] == t.players[k].(lives := t.players[k].lives - 1,
                                       eliminated := t.players[k].lives - 1 <= 0)
      && (forall j :: 0 <= j < |t.players| && j != k ==> r.players[j] == t.players[j])
      && (forall i: nat :: SoleSurvivor(r.players, i) ==> r.gameOver && r.winner == Some(i))
      && ((forall i: nat :: !SoleSurvivor(r.players, i)) ==> r.gameOver == t.gameOver && r.winner == t.winner)
  {
    var c := t.current;
    var p := t.players[c];
    assert segment.number != p.number;
    assert IsTarget(t.players[k], segment.number, p.id);
    assert FindTarget(t.players, segment.number, p.id, 0) == Some(k);
  }

  /** A killer hitting their own number hurts nobody: the throw changes nothing. */
  lemma KillerOwnNumberHarmless(t: Table<KillerPlayer>, hitsToKiller: int, segment: Segment)
    requires WellFormed(t) && !t.gameOver && t.players[t.current].isKiller
    requires segment.number == t.players[t.current].number
    ensures ApplyThrow(t, hitsToKiller, segment) == t
  {
    var p := t.players[t.current];
    assert forall k :: 0 <= k < |t.players| ==> !IsTarget(t.players[k], segment.number, p.id);
  }

  /** A non-killer who misses their own number, and a killer who hits no opponent still in,
      change nothing. */
  lemma MissChangesNothing(t: Table<KillerPlayer>, hitsToKiller: int, segment: Segment)
    requires WellFormed(t) && !t.gameOver
    requires var p := t.players[t.current];
      if p.isKiller then
        forall j :: 0 <= j < |t.players| && j != t.current ==>
          t.players[j].number != segment.number || t.players[j].eliminated
      else segment.number != p.number
    ensures ApplyThrow(t, hitsToKiller, segment) == t
  {
    var p := t.players[t.current];
    if p.isKiller {
      assert forall k :: 0 <= k < |t.players| ==> !IsTarget(t.players[k], segment.number, p.id);
    }
  }

  /** The multiplier never matters in Killer. */
  lemma MultiplierIgnored(t: Table<KillerPlayer>, hitsToKiller: int, number: BoardNumber, m1: Multiplier, m2: Multiplier)
    requires WellFormed(t)
    ensures ApplyThrow(t, hitsToKiller, Segment(number, m1)) == ApplyThrow(t, hitsToKiller, Segment(number, m2))
  {
  }

  /** The thrower never loses a life on their own throw. */
  lemma ThrowerKeepsLives(t: Table<KillerPlayer>, hitsToKiller: int, segment: Segment)
    requires WellFormed(t)
    ensures var r := ApplyThrow(t, hitsToKiller, segment);
      r.players[t.current].lives == t.players[t.current].lives &&
      r.players[t.current].eliminated == t.players[t.current].eliminated
  {
    if !t.gameOver {
      var p := t.players[t.current];
      if !(segment.number == p.number && !p.isKiller) && p.isKiller {
        var found := FindTarget(t.players, segment.number, p.id, 0);
        if found.Some? {
          assert t.players[found.value].id != p.id;
        }
      }
    }
  }

  /** `nextPlayer`, if the game is not over, ends on a player still in after at most n steps,
      every seat it skipped being eliminated; or it ends the game, and then every player other
      than the current one is eliminated. */
  lemma PassTurnLandsOnSurvivor(t: Table<KillerPlayer>)
    requires WellFormed(t) && !t.gameOver
    ensures var r := PassTurn(t); var n := |t.players|;
      if r.gameOver then
        r.current == t.current &&
        forall j :: 0 <= j < n && j != t.current ==> t.players[j].eliminated
      else
        !r.players[r.current].eliminated &&
        exists d: nat :: 0 < d < n && r.current == Advance(t.current, n, d) &&
          forall e: nat :: 0 < e < d ==> t.players[Advance(t.current, n, e)].eliminated
  {
    var n := |t.players|;
    var d := Gap(t.players, t.current, 1);
    if d >= n {
      forall j | 0 <= j < n && j != t.current ensures t.players[j].eliminated {
        EverySeatWithinLap(t.current, n, j);
      }
    }
  }

  lemma ThrowKeepsInPlay(t: Table<KillerPlayer>, hitsToKiller: int, segment: Segment)
    requires InPlay(t)
    ensures InPlay(ApplyThrow(t, hitsToKiller, segment))
  {
    if t.gameOver { return; }
    var c := t.current;
    var p := t.players[c];
    if segment.number == p.number && !p.isKiller {
      OwnHitKeepsInPlay(t, hitsToKiller, segment);
    } else if p.isKiller && FindTarget(t.players, segment.number, p.id, 0).Some? {
      TargetHitKeepsInPlay(t, hitsToKiller, segment);
    }
  }

  /** A killer's hit on an opponent leaves the thrower in, and `checkWinner` keeps the rules. */
  lemma TargetHitKeepsInPlay(t: Table<KillerPlayer>, hitsToKiller: int, segment: Segment)
    requires InPlay(t) && !t.gameOver
    requires var p := t.players[t.current];
      !(segment.number == p.number && !p.isKiller) && p.isKiller &&
      FindTarget(t.players, segment.number, p.id, 0).Some?
    ensures InPlay(ApplyThrow(t, hitsToKiller, segment))
  {
    var c := t.current;
    var p := t.players[c];
    var k := FindTarget(t.players, segment.number, p.id, 0).value;
    var q := t.players[k];
    var lives := q.lives - 1;
    var mid := t.(players := t.players[k := q.(lives := lives,
                                               eliminated := if lives <= 0 then true else q.eliminated)]);
    assert ApplyThrow(t, hitsToKiller, segment) == Judge(mid);
    assert !mid.players[c].eliminated;
    JudgeKeepsInPlay(mid);
  }

  /** A hit on the thrower's own number eliminates nobody, so the game keeps running. */
  lemma OwnHitKeepsInPlay(t: Table<KillerPlayer>, hitsToKiller: int, segment: Segment)
    requires InPlay(t) && !t.gameOver
    requires segment.number == t.players[t.current].number && !t.players[t.current].isKiller
    ensures InPlay(ApplyThrow(t, hitsToKiller, segment))
  {
    var c := t.current;
    var r := ApplyThrow(t, hitsToKiller, segment);
    assert forall i :: 0 <= i < |t.players| ==> r.players[i].eliminated == t.players[i].eliminated;
    var j :| 0 <= j < |t.players| && j != c && !t.players[j].eliminated;
    assert !r.players[j].eliminated;
  }

  /** After a life is taken while the thrower is still in, `checkWinner` either finds the
      thrower alone and ends the game, or leaves a running table with someone else in. */
  lemma JudgeKeepsInPlay(m: Table<KillerPlayer>)
    requires WellFormed(m) && !m.gameOver && m.winner.None? && !m.players[m.current].eliminated
    ensures InPlay(Judge(m))
  {
    var c := m.current;
    if exists j :: 0 <= j < |m.players| && j != c && !m.players[j].eliminated {
      var j :| 0 <= j < |m.players| && j != c && !m.players[j].eliminated;
      assert forall i: nat :: !SoleSurvivor(m.players, i);
      assert Judge(m) == m;
    } else {
      assert SoleSurvivor(m.players, c);
    }
  }

  /** While Killer is running, `nextPlayer` never takes the full-lap branch: it always finds
      another player still in, so it never ends the game; the rules keep holding. */
  lemma PassTurnKeepsInPlay(t: Table<KillerPlayer>)
    requires InPlay(t)
    ensures InPlay(PassTurn(t))
    ensures !t.gameOver ==> !PassTurn(t).gameOver
  {
    if t.gameOver { return; }
    var n := |t.players|;
    var c := t.current;
    var j :| 0 <= j < n && j != c && !t.players[j].eliminated;
    EverySeatWithinLap(c, n, j);
    var d := Gap(t.players, c, 1);
    assert d < n;
    NoEarlyReturn(c, n, d);
  }

  class KillerGame {
    const base: BaseGame<KillerPlayer>
    const startingLives: int
    const hitsToKiller: int

    ghost predicate Valid()
      reads this, base
    {
      WellFormed(base.State())
    }

    /** Deals a distinct board number to each player; 0 or NaN options fall back to
        3 lives and 1 hit to become a killer. */
    constructor (players: seq<SetupPlayer>, startingLives: Option<int>, hitsToKiller: Option<int>)
      requires 1 <= |players| <= 20
      requires DistinctIds(players)
      ensures Valid() && fresh(base)
      ensures this.startingLives == OrDefault(startingLives, DefaultLives)
      ensures this.hitsToKiller == OrDefault(hitsToKiller, DefaultHitsToKiller)
      ensures Started(base.State(), players, this.startingLives)
    {
      var lives := OrDefault(startingLives, DefaultLives);
      this.startingLives := lives;
      this.hitsToKiller := OrDefault(hitsToKiller, DefaultHitsToKiller);
      var availableNumbers := ShuffleNumbers();
      DealtNumbers(availableNumbers);
      var dealt := Deal(players, availableNumbers, lives);
      DealtTable(players, availableNumbers, lives);
      base := new BaseGame(dealt);
    }

    method ProcessThrow(segment: Segment)
      requires Valid()
      modifies base
      ensures Valid()
      ensures base.State() == ApplyThrow(old(base.State()), hitsToKiller, segment)
    {
      ghost var t := base.State();
      ghost var r := ApplyThrow(t, hitsToKiller, segment);
      if base.gameOver {
        return;
      }
      var c := base.currentPlayerIndex;
      var currentPlayer := base.GetCurrentPlayer();
      var hitNumber := segment.number;

      if hitNumber == currentPlayer.number && !currentPlayer.isKiller {
        var hits := currentPlayer.hitsOnOwnNumber + 1;
        var isKiller := currentPlayer.isKiller;
        if hits >= hitsToKiller {
          isKiller := true;
        }
        base.players := base.players[c := currentPlayer.(hitsOnOwnNumber := hits, isKiller := isKiller)];
        assert base.State() == r;
        return;
      }

      if currentPlayer.isKiller {
        var targetPlayer := FindTarget(base.players, hitNumber, currentPlayer.id, 0);
        if targetPlayer.Some? {
          var k := targetPlayer.value;
          var target := base.players[k];
          target := target.(lives := target.lives - 1);
          if target.lives <= 0 {
            target := target.(eliminated := true);
          }
          base.players := base.players[k := target];
          assert Judge(base.State()) == r;
          CheckWinner();
          return;
        }
      }
    }

    method CheckWinner()
      requires base.Valid()
      modifies base
      ensures base.State() == Judge(old(base.State()))
    {
      var activePlayers := Survivors(base.players, 0);
      if |activePlayers| == 1 {
        base.gameOver := true;
        base.winner := Some(activePlayers[0]);
      }
    }

    method NextPlayer()
      requires Valid()
      modifies base
      ensures Valid()
      ensures base.State() == PassTurn(old(base.State()))
    {
      if base.gameOver {
        return;
      }
      ghost var start := base.currentPlayerIndex;
      var n := |base.players|;
      var attempts := 0;
      base.NextPlayerIndex();
      attempts := attempts + 1;
      while base.GetCurrentPlayer().eliminated && attempts < n
        invariant 1 <= attempts <= n
        invariant base.Valid() && base.players == old(base.players)
        invariant base.gameOver == old(base.gameOver) && base.winner == old(base.winner)
        invariant base.currentPlayerIndex == Advance(start, n, attempts)
        invariant forall e: nat :: 1 <= e < attempts ==> base.players[Advance(start, n, e)].eliminated
        decreases n - attempts
      {
        base.NextPlayerIndex();
        attempts := attempts + 1;
      }
      assert attempts == Gap(old(base.players), start, 1) || attempts == n;
      if attempts >= n {
        FullLap(start, n);
        base.gameOver := true;
        return;
      }
    }
  }

  /** A deck holds pairwise distinct numbers, each in 1..20. */
  lemma DealtNumbers(numbers: seq<int>)
    requires IsDeck(numbers)
    ensures Distinct(numbers)
    ensures forall k :: 0 <= k < |numbers| ==> 1 <= numbers[k] <= 20
  {
    forall i, j | 0 <= i < j < |numbers| ensures numbers[i] != numbers[j] {
      if numbers[i] == numbers[j] {
        TwoOccurrences(numbers, i, j);
      }
    }
    forall k | 0 <= k < |numbers| ensures 1 <= numbers[k] <= 20 {
      assert numbers[k] in multiset(numbers);
    }
  }

  /** The players of a new game: the roster, in order, the `i`-th dealt the `i`-th number,
      with full lives, no hits and not yet a killer. */
  function Deal(roster: seq<SetupPlayer>, numbers: seq<int>, lives: int): (dealt: seq<KillerPlayer>)
    requires |roster| <= |numbers|
    ensures |dealt| == |roster|
    ensures forall i :: 0 <= i < |roster| ==>
      dealt[i] == KillerPlayer(roster[i].id, roster[i].name, numbers[i], lives, false, 0, false)
  {
    seq(|roster|, i requires 0 <= i < |roster| =>
      KillerPlayer(roster[i].id, roster[i].name, numbers[i], lives, false, 0, false))
  }

  /** Dealing distinct board numbers to a roster with distinct ids starts a well-formed game. */
  lemma DealtTable(roster: seq<SetupPlayer>, numbers: seq<int>, lives: int)
    requires 1 <= |roster| <= |numbers| && DistinctIds(roster) && Distinct(numbers)
    requires forall k :: 0 <= k < |numbers| ==> 1 <= numbers[k] <= 20
    ensures var t := Table(Deal(roster, numbers, lives), 0, false, None);
      WellFormed(t) && Started(t, roster, lives)
  {
  }

  /** In a sequence without repeats, every element occurs once and nothing else occurs. */
  lemma {:induction false} DistinctCounts(t: seq<int>)
    requires Distinct(t)
    ensures forall x :: multiset(t)[x] == if x in t then 1 else 0
  {
    if t != [] {
      DistinctCounts(t[1..]);
      assert t == [t[0]] + t[1..];
      assert t[0] !in t[1..];
      assert multiset(t) == multiset{t[0]} + multiset(t[1..]);
    }
  }

  lemma TwoOccurrences(s: seq<int>, i: nat, j: nat)
    requires i < j < |s| && s[i] == s[j]
    ensures multiset(s)[s[i]] >= 2
  {
    assert s == s[..j] + s[j..];
    assert s[i] in s[..j];
    assert s[j] in s[j..];
    assert multiset(s) == multiset(s[..j]) + multiset(s[j..]);
  }
}
