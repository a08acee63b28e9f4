/** The module-level state of the game system (games/index.js, and its older single-file copy
    games.js): the setup roster, the chosen game type, the running game, and the
    integrator's counters, with the handlers that update them. */
module Session {
  import opened Wrappers
  import opened Segments
  import opened Base
  import opened Games
  import opened Integrator
  import Killer
  import X01
  import Cricket
  import SnakesLadders

  /** Which copy of the game system: the modular one with four games, or the single-file one
      with Killer only. */
  datatype Build = Modular | Legacy

  const MaxPlayers := 8
  const MinPlayers := 2

  /** `setupPlayers.filter(p => p.id !== id)`. */
  function RemoveId(ps: seq<SetupPlayer>, id: int): (r: seq<SetupPlayer>)
    decreases |ps|
    ensures |r| <= |ps|
    ensures forall p :: p in r <==> p in ps && p.id != id
  {
    if ps == [] then []
    else (if ps[0].id != id then [ps[0]] else []) + RemoveId(ps[1..], id)
  }

  /** The game types the session can start, in each build. */
  predicate Launches(build: Build, gameType: string)
  {
    gameType == "killer" || (build == Modular && (gameType == "301" || gameType == "cricket" || gameType == "snakes"))
  }

  // ---------------------------------------------------------------- roster properties

  /** Removal keeps the order of the players that stay: it distributes over concatenation. */
  lemma {:induction false} RemoveIdDistributes(a: seq<SetupPlayer>, b: seq<SetupPlayer>, id: int)
    ensures RemoveId(a + b, id) == RemoveId(a, id) + RemoveId(b, id)
    decreases |a|
  {
    if a == [] {
      assert a + b == b;
    } else {
      assert (a + b)[0] == a[0];
      assert (a + b)[1..] == a[1..] + b;
      RemoveIdDistributes(a[1..], b, id);
    }
  }

  /** Removing an id nobody has changes nothing. */
  lemma {:induction false} RemoveAbsentId(ps: seq<SetupPlayer>, id: int)
    requires forall k :: 0 <= k < |ps| ==> ps[k].id != id
    ensures RemoveId(ps, id) == ps
    decreases |ps|
  {
    if ps != [] {
      RemoveAbsentId(ps[1..], id);
    }
  }

  /** Removing from a roster with distinct ids leaves distinct ids. */
  lemma {:induction false} RemoveKeepsDistinct(ps: seq<SetupPlayer>, id: int)
    requires DistinctIds(ps)
    ensures DistinctIds(RemoveId(ps, id))
    decreases |ps|
  {
    if ps != [] {
      var rest := ps[1..];
      assert DistinctIds(rest) by {
        forall i, j | 0 <= i < j < |rest| ensures rest[i].id != rest[j].id {
          assert rest[i] == ps[i + 1] && rest[j] == ps[j + 1];
        }
      }
      RemoveKeepsDistinct(rest, id);
      var tail := RemoveId(rest, id);
      if ps[0].id != id {
        forall k | 0 <= k < |tail| ensures tail[k].id != ps[0].id {
          assert tail[k] in rest;
          var m :| 0 <= m < |rest| && rest[m] == tail[k];
          assert rest[m] == ps[m + 1];
        }
        ConsKeepsDistinct(ps[0], tail);
        assert RemoveId(ps, id) == [ps[0]] + tail;
      } else {
        assert RemoveId(ps, id) == [] + tail;
      }
    }
  }

  lemma ConsKeepsDistinct(p: SetupPlayer, tail: seq<SetupPlayer>)
    requires DistinctIds(tail) && forall k :: 0 <= k < |tail| ==> tail[k].id != p.id
    ensures DistinctIds([p] + tail)
  {
    var r := [p] + tail;
    forall i, j | 0 <= i < j < |r| ensures r[i].id != r[j].id {
      if i == 0 {
        assert r[j] == tail[j - 1];
      } else {
        assert r[i] == tail[i - 1] && r[j] == tail[j - 1];
      }
    }
  }

  class GameSession {
    const build: Build
    var currentGame: Option<Game>
    var setupPlayers: seq<SetupPlayer>
    var selectedGameType: string
    var throwsInCurrentTurn: int
    var lastThrowCount: int
    /** `setTimeout` callbacks scheduled by takeouts that have not run yet. */
    var pendingTimers: nat

    ghost function GameObjects(): set<object>
      reads this
    {
      if currentGame.Some? then currentGame.value.Objects() else {}
    }

    ghost function Counters(): Integrator.Counters
      reads this
    {
      Integrator.Counters(throwsInCurrentTurn, lastThrowCount, pendingTimers)
    }

    /** The running game's state, if there is one. */
    ghost function Playing(): Option<Play>
      reads this, GameObjects()
    {
      if currentGame.Some? then Some(currentGame.value.State()) else None
    }

    /** The roster respects the cap and keeps ids apart, the running game keeps its rules'
        invariant, and the single-file build only ever runs Killer. */
    ghost predicate Valid()
      reads this, GameObjects()
    {
      && |setupPlayers| <= MaxPlayers
      && DistinctIds(setupPlayers)
      && (currentGame.Some? ==>
            this !in currentGame.value.Objects() && currentGame.value.Valid())
      && (build == Legacy ==> currentGame.None? || currentGame.value.KillerVariant?)
    }

    /** The state at page load: no game, no players, Killer selected, counters at zero. */
    constructor (build: Build)
      ensures Valid()
      ensures this.build == build && currentGame == None && setupPlayers == []
      ensures selectedGameType == "killer" && Counters() == Integrator.Counters(0, 0, 0)
    {
      this.build := build;
      currentGame := None;
      setupPlayers := [];
      selectedGameType := "killer";
      throwsInCurrentTurn := 0;
      lastThrowCount := 0;
      pendingTimers := 0;
    }

    /** A click on a game-type button; the single-file build ignores 301 and Cricket. */
    method SelectGameType(game: string)
      requires Valid()
      modifies this
      ensures Valid()
      ensures selectedGameType ==
                if build == Legacy && (game == "301" || game == "cricket") then old(selectedGameType) else game
      ensures currentGame == old(currentGame) && setupPlayers == old(setupPlayers) && Counters() == old(Counters())
    {
      if build == Legacy && (game == "301" || game == "cricket") {
        return;
      }
      selectedGameType := game;
    }

    /** `openGameSetup`: the roster starts empty. */
    method OpenGameSetup()
      requires Valid()
      modifies this
      ensures Valid()
      ensures setupPlayers == []
      ensures currentGame == old(currentGame) && selectedGameType == old(selectedGameType)
      ensures Counters() == old(Counters())
    {
      setupPlayers := [];
    }

    /** `addPlayer`: appends the player unless eight are already listed. The id stands for
        `Date.now()` and is taken to be new. */
    method AddPlayer(name: string, id: int) returns (added: bool)
      requires Valid()
      requires forall k :: 0 <= k < |setupPlayers| ==> setupPlayers[k].id != id
      modifies this
      ensures Valid()
      ensures added <==> |old(setupPlayers)| < MaxPlayers
      ensures setupPlayers == if added then old(setupPlayers) + [SetupPlayer(id, name)] else old(setupPlayers)
      ensures currentGame == old(currentGame) && selectedGameType == old(selectedGameType)
      ensures Counters() == old(Counters())
    {
      if |setupPlayers| >= MaxPlayers {
        return false;
      }
      setupPlayers := setupPlayers + [SetupPlayer(id, name)];
      return true;
    }

    /** `removePlayer`: drops every entry with the id. */
    method RemovePlayer(id: int)
      requires Valid()
      modifies this
      ensures Valid()
      ensures setupPlayers == RemoveId(old(setupPlayers), id)
      ensures currentGame == old(currentGame) && selectedGameType == old(selectedGameType)
      ensures Counters() == old(Counters())
    {
      RemoveKeepsDistinct(setupPlayers, id);
      setupPlayers := RemoveId(setupPlayers, id);
    }

    /** `startGame`. The options are the parsed form fields (`None` for `NaN`); X01 always
        starts from 301. The counters are left as they are. */
    method StartGame(startingLives: Option<int>, hitsToKiller: Option<int>, doubleOut: bool)
      requires Valid()
      modifies this
      ensures Valid()
      ensures setupPlayers == old(setupPlayers) && selectedGameType == old(selectedGameType)
      ensures Counters() == old(Counters())
      ensures |setupPlayers| < MinPlayers || !Launches(build, selectedGameType) ==> currentGame == old(currentGame)
      ensures |setupPlayers| >= MinPlayers && Launches(build, selectedGameType) ==>
        currentGame.Some? && fresh(currentGame.value.Objects()) &&
        match currentGame.value.State()
        case KillerPlay(t, h) =>
          selectedGameType == "killer" && h == OrDefault(hitsToKiller, Killer.DefaultHitsToKiller) &&
          Killer.Started(t, setupPlayers, OrDefault(startingLives, Killer.DefaultLives))
        case X01Play(s, d) =>
          selectedGameType == "301" && d == doubleOut && X01.Started(s, setupPlayers, 301)
        case CricketPlay(t) =>
          selectedGameType == "cricket" && Cricket.Started(t, setupPlayers)
        case SnakesPlay(t) =>
          selectedGameType == "snakes" && SnakesLadders.Started(t, setupPlayers)
    {
      if |setupPlayers| < MinPlayers {
        return;
      }
      if selectedGameType == "killer" {
        var game := new Killer.KillerGame(setupPlayers, startingLives, hitsToKiller);
        Killer.StartedInPlay(game.base.State(), setupPlayers, game.startingLives);
        currentGame := Some(KillerVariant(game));
      } else if build == Modular {
        if selectedGameType == "301" {
          var game := new X01.X01Game(setupPlayers, Some(301), doubleOut);
          X01.StartedInPlay(game.State(), setupPlayers, 301);
          currentGame := Some(X01Variant(game));
        } else if selectedGameType == "cricket" {
          var game := new Cricket.CricketGame(setupPlayers);
          Cricket.StartedInPlay(game.base.State(), setupPlayers);
          currentGame := Some(CricketVariant(game));
        } else if selectedGameType == "snakes" {
          var game := new SnakesLadders.SnakesAndLaddersGame(setupPlayers);
          currentGame := Some(SnakesVariant(game));
        }
      }
    }

    /** `endGame`, with the answer to the confirmation dialog. */
    method EndGame(confirmed: bool)
      requires Valid()
      modifies this
      ensures Valid()
      ensures currentGame == if confirmed then None else old(currentGame)
      ensures setupPlayers == old(setupPlayers) && selectedGameType == old(selectedGameType)
      ensures Counters() == old(Counters())
    {
      if confirmed {
        currentGame := None;
      }
    }

    method IsGameActive() returns (active: bool)
      ensures active <==> currentGame.Some?
    {
      return currentGame.Some?;
    }

    /** `handleGameThrow`: nothing without a game; otherwise the game is sent the last dart
        of the snapshot if the count went up, and the counters move as `Observe` says. */
    method HandleGameThrow(s: Snapshot)
      requires Valid()
      modifies this, GameObjects()
      ensures Valid()
      ensures currentGame == old(currentGame) && setupPlayers == old(setupPlayers)
      ensures selectedGameType == old(selectedGameType)
      ensures old(currentGame).None? ==> Counters() == old(Counters())
      ensures old(currentGame).Some? ==> Counters() == Observe(old(Counters()), s)
      ensures old(currentGame).Some? ==>
        Playing() == Some(if IsNewThrow(old(lastThrowCount), s) then ThrowStep(old(Playing()).value, Latest(s))
                          else old(Playing()).value)
    {
      if currentGame.None? {
        return;
      }
      DispatchThrow(s);
      lastThrowCount := s.numThrows;
      if s.event == TakeoutFinished {
        if throwsInCurrentTurn > 0 {
          pendingTimers := pendingTimers + 1;
        }
      }
      if s.numThrows == 0 {
        lastThrowCount := 0;
      }
    }

    /** The first step of `handleGameThrow`: a count above the last one, with a dart in the
        snapshot, sends that dart to the game and counts it for the turn. */
    method DispatchThrow(s: Snapshot)
      requires Valid() && currentGame.Some?
      modifies this, GameObjects()
      ensures Valid()
      ensures currentGame == old(currentGame) && setupPlayers == old(setupPlayers)
      ensures selectedGameType == old(selectedGameType)
      ensures Counters() == old(Counters()).(throwsInCurrentTurn :=
                old(throwsInCurrentTurn) + if IsNewThrow(old(lastThrowCount), s) then 1 else 0)
      ensures Playing() == Some(if IsNewThrow(old(lastThrowCount), s) then ThrowStep(old(Playing()).value, Latest(s))
                                else old(Playing()).value)
    {
      var game := currentGame.value;
      if s.numThrows > lastThrowCount && |s.throws| > 0 {
        var latestThrow := s.throws[|s.throws| - 1];
        Games.ProcessThrow(game, latestThrow);
        throwsInCurrentTurn := throwsInCurrentTurn + 1;
      }
    }

    /** One scheduled callback runs: `currentGame.nextPlayer()`, then the turn's count goes
        back to zero. If the game was ended meanwhile, `currentGame` is null and the callback
        faults before it resets the count. */
    method FireTimer() returns (faulted: bool)
      requires Valid() && pendingTimers > 0
      modifies this, GameObjects()
      ensures Valid()
      ensures faulted <==> old(currentGame).None?
      ensures currentGame == old(currentGame) && setupPlayers == old(setupPlayers)
      ensures selectedGameType == old(selectedGameType)
      ensures faulted ==> Counters() == old(Counters()).(pending := old(pendingTimers) - 1)
      ensures !faulted ==> Counters() == Fire(old(Counters())) && Playing() == Some(TurnStep(old(Playing()).value))
    {
      pendingTimers := pendingTimers - 1;
      if currentGame.None? {
        return true;
      }
      Games.NextPlayer(currentGame.value);
      throwsInCurrentTurn := 0;
      return false;
    }
  }
}
