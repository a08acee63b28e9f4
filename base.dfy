/** The player rotation every game variant shares (games/base.js). */
module Base {
  import opened Wrappers

  /** A roster entry as the setup dialog collects it. */
  datatype SetupPlayer = SetupPlayer(id: int, name: string)

  ghost predicate DistinctIds(roster: seq<SetupPlayer>)
  {
    forall i, j :: 0 <= i < j < |roster| ==> roster[i].id != roster[j].id
  }

  ghost predicate Distinct<T>(s: seq<T>)
  {
    forall i, j :: 0 <= i < j < |s| ==> s[i] != s[j]
  }

  /** The state a `BaseGame` holds: the players in turn order, whose turn it is,
      whether the game is over, and the winner as an index into `players`. */
  datatype Table<P> = Table(players: seq<P>, current: nat, gameOver: bool, winner: Option<nat>)
  {
    ghost predicate Valid()
    {
      1 <= |players| && current < |players| && (winner.Some? ==> winner.value < |players|)
    }
  }

  /** `(i + 1) % n`: the seat after `i`, wrapping from the last seat to the first. */
  function NextIndex(i: nat, n: nat): (j: nat)
    requires i < n
    ensures j < n
    ensures if i + 1 < n then j == i + 1 else j == 0
  {
    (i + 1) % n
  }

  /** The seat reached from `i` after `k` calls of `nextPlayerIndex`. */
  function Advance(i: nat, n: nat, k: nat): (j: nat)
    requires i < n
    ensures j < n
  {
    if k == 0 then i else NextIndex(Advance(i, n, k - 1), n)
  }

  /** Within one lap, `k` steps move `k` seats forward, wrapping once past the last seat. */
  lemma {:induction false} AdvanceWithinLap(i: nat, n: nat, k: nat)
    requires i < n && k <= n
    ensures Advance(i, n, k) == if i + k < n then i + k else i + k - n
  {
    if k > 0 {
      AdvanceWithinLap(i, n, k - 1);
    }
  }

  /** `n` calls of `nextPlayerIndex` come back to the starting seat. */
  lemma FullLap(i: nat, n: nat)
    requires i < n
    ensures Advance(i, n, n) == i
  {
    AdvanceWithinLap(i, n, n);
  }

  /** Every other seat is reached within one lap, at a step strictly between 0 and `n`. */
  lemma EverySeatWithinLap(i: nat, n: nat, j: nat)
    requires i < n && j < n && j != i
    ensures var d := if j > i then j - i else j + n - i; 0 < d < n && Advance(i, n, d) == j
  {
    var d := if j > i then j - i else j + n - i;
    AdvanceWithinLap(i, n, d);
  }

  /** A step strictly inside a lap never lands back on the starting seat. */
  lemma NoEarlyReturn(i: nat, n: nat, d: nat)
    requires i < n && 0 < d < n
    ensures Advance(i, n, d) != i
  {
    AdvanceWithinLap(i, n, d);
  }

  /** The table after `nextPlayerIndex`: only the current seat moves. */
  function Rotate<P>(t: Table<P>): (r: Table<P>)
    requires t.Valid()
    ensures r.Valid()
    ensures r.players == t.players && r.gameOver == t.gameOver && r.winner == t.winner
    ensures r.current == NextIndex(t.current, |t.players|)
  {
    t.(current := NextIndex(t.current, |t.players|))
  }

  class BaseGame<P> {
    var players: seq<P>
    var currentPlayerIndex: nat
    var gameOver: bool
    var winner: Option<nat>

    ghost function State(): Table<P>
      reads this
    {
      Table(players, currentPlayerIndex, gameOver, winner)
    }

    ghost predicate Valid()
      reads this
    {
      State().Valid()
    }

    /** A new game: first seat to throw, not over, no winner. */
    constructor (players: seq<P>)
      requires |players| >= 1
      ensures Valid()
      ensures State() == Table(players, 0, false, None)
    {
      this.players := players;
      currentPlayerIndex := 0;
      gameOver := false;
      winner := None;
    }

    function GetCurrentPlayer(): (p: P)
      reads this
      requires Valid()
      ensures p in players
    {
      players[currentPlayerIndex]
    }

    /** Moves the turn to the next seat and changes nothing else. */
    method NextPlayerIndex()
      requires Valid()
      modifies this
      ensures Valid()
      ensures State() == Rotate(old(State()))
    {
      currentPlayerIndex := (currentPlayerIndex + 1) % |players|;
    }
  }
}
