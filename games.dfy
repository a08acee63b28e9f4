/** The four rule sets behind one interface: whichever game the session holds, it is sent
    `processThrow(segment)` for every new dart and `nextPlayer()` at the end of every turn. */
module Games {
  import opened Wrappers
  import opened Segments
  import opened Base
  import Killer
  import X01
  import Cricket
  import SnakesLadders

  /** The value state of a running game, whichever rule set it follows, with the options
      the rules read. */
  datatype Play =
    | KillerPlay(killerTable: Table<Killer.KillerPlayer>, hitsToKiller: int)
    | X01Play(x01Turn: X01.Turn, doubleOut: bool)
    | CricketPlay(cricketTable: Table<Cricket.CricketPlayer>)
    | SnakesPlay(snakesTable: Table<SnakesLadders.SnakesPlayer>)
  {
    ghost predicate WellFormed()
    {
      match this
      case KillerPlay(t, _) => Killer.WellFormed(t)
      case X01Play(s, _) => X01.WellFormed(s)
      case CricketPlay(t) => Cricket.WellFormed(t)
      case SnakesPlay(t) => SnakesLadders.WellFormed(t)
    }

    /** The invariant each rule set keeps while its game runs. */
    ghost predicate InPlay()
    {
      match this
      case KillerPlay(t, _) => Killer.InPlay(t)
      case X01Play(s, _) => X01.InPlay(s)
      case CricketPlay(t) => Cricket.InPlay(t)
      case SnakesPlay(t) => SnakesLadders.WellFormed(t)
    }

    function Current(): nat
    {
      match this
      case KillerPlay(t, _) => t.current
      case X01Play(s, _) => s.table.current
      case CricketPlay(t) => t.current
      case SnakesPlay(t) => t.current
    }

    function Seats(): nat
    {
      match this
      case KillerPlay(t, _) => |t.players|
      case X01Play(s, _) => |s.table.players|
      case CricketPlay(t) => |t.players|
      case SnakesPlay(t) => |t.players|
    }

    function GameOver(): bool
    {
      match this
      case KillerPlay(t, _) => t.gameOver
      case X01Play(s, _) => s.table.gameOver
      case CricketPlay(t) => t.gameOver
      case SnakesPlay(t) => t.gameOver
    }
  }

  /** `currentGame.processThrow(segment)`, by the rules of the game. */
  function ThrowStep(p: Play, segment: Segment): (r: Play)
    requires p.WellFormed()
    ensures r.WellFormed()
  {
    match p
    case KillerPlay(t, h) => KillerPlay(Killer.ApplyThrow(t, h, segment), h)
    case X01Play(s, d) => X01Play(X01.ApplyThrow(s, segment), d)
    case CricketPlay(t) => CricketPlay(Cricket.ApplyThrow(t, segment))
    case SnakesPlay(t) => SnakesPlay(SnakesLadders.ApplyThrow(t, segment))
  }

  /** `currentGame.nextPlayer()`, by the rules of the game. */
  function TurnStep(p: Play): (r: Play)
    requires p.WellFormed()
    ensures r.WellFormed()
  {
    match p
    case KillerPlay(t, h) => KillerPlay(Killer.PassTurn(t), h)
    case X01Play(s, d) => X01Play(X01.PassTurn(s, d), d)
    case CricketPlay(t) => CricketPlay(Cricket.PassTurn(t))
    case SnakesPlay(t) => SnakesPlay(SnakesLadders.PassTurn(t))
  }

  /** Whatever the rule set, a dart keeps that rule set's running invariant. */
  lemma ThrowStepKeepsInPlay(p: Play, segment: Segment)
    requires p.InPlay()
    ensures p.WellFormed() && ThrowStep(p, segment).InPlay()
  {
    match p
    case KillerPlay(t, h) => Killer.ThrowKeepsInPlay(t, h, segment);
    case X01Play(s, d) => X01.ThrowKeepsInPlay(s, segment);
    case CricketPlay(t) => Cricket.ThrowKeepsInPlay(t, segment);
    case SnakesPlay(t) =>
  }

  /** Whatever the rule set, the end of a turn keeps that rule set's running invariant. */
  lemma TurnStepKeepsInPlay(p: Play)
    requires p.InPlay()
    ensures p.WellFormed() && TurnStep(p).InPlay()
  {
    match p
    case KillerPlay(t, h) => Killer.PassTurnKeepsInPlay(t);
    case X01Play(s, d) => X01.PassTurnKeepsInPlay(s, d);
    case CricketPlay(t) => Cricket.PassTurnRotates(t);
    case SnakesPlay(t) =>
  }

  /** In every rule set a dart leaves the turn where it is and the seats as they are, and a
      finished game never restarts. */
  lemma ThrowKeepsTurn(p: Play, segment: Segment)
    requires p.WellFormed()
    ensures var r := ThrowStep(p, segment);
      r.Current() == p.Current() && r.Seats() == p.Seats() && (p.GameOver() ==> r == p)
  {
    match p
    case KillerPlay(t, h) =>
    case X01Play(s, d) =>
      if !s.table.gameOver {
        X01.ThrowAccumulates(s, segment);
      }
    case CricketPlay(t) =>
    case SnakesPlay(t) =>
  }

  /** In every rule set, once the game is over, the end of a turn changes nothing; while it
      runs, the turn lands on a seat of the table. */
  lemma TurnStepFrozenWhenOver(p: Play)
    requires p.WellFormed()
    ensures var r := TurnStep(p);
      r.Seats() == p.Seats() && r.Current() < r.Seats() && (p.GameOver() ==> r == p)
  {
    match p
    case KillerPlay(t, h) =>
    case X01Play(s, d) =>
    case CricketPlay(t) =>
    case SnakesPlay(t) =>
  }

  /** The game object the session holds. */
  datatype Game =
    | KillerVariant(killer: Killer.KillerGame)
    | X01Variant(x01: X01.X01Game)
    | CricketVariant(cricket: Cricket.CricketGame)
    | SnakesVariant(snakes: SnakesLadders.SnakesAndLaddersGame)
  {
    ghost function Objects(): set<object>
    {
      match this
      case KillerVariant(g) => {g, g.base}
      case X01Variant(g) => {g, g.base}
      case CricketVariant(g) => {g, g.base}
      case SnakesVariant(g) => {g, g.base}
    }

    ghost function State(): Play
      reads Objects()
    {
      match this
      case KillerVariant(g) => KillerPlay(g.base.State(), g.hitsToKiller)
      case X01Variant(g) => X01Play(g.State(), g.doubleOut)
      case CricketVariant(g) => CricketPlay(g.base.State())
      case SnakesVariant(g) => SnakesPlay(g.base.State())
    }

    /** The running game keeps its rules' invariant. */
    ghost predicate Valid()
      reads Objects()
    {
      State().InPlay()
    }
  }

  method ProcessThrow(g: Game, segment: Segment)
    requires g.Valid()
    modifies g.Objects()
    ensures g.Valid()
    ensures g.State() == ThrowStep(old(g.State()), segment)
  {
    ThrowStepKeepsInPlay(g.State(), segment);
    match g
    case KillerVariant(k) => k.ProcessThrow(segment);
    case X01Variant(x) => x.ProcessThrow(segment);
    case CricketVariant(c) => c.ProcessThrow(segment);
    case SnakesVariant(s) => s.ProcessThrow(segment);
  }

  method NextPlayer(g: Game)
    requires g.Valid()
    modifies g.Objects()
    ensures g.Valid()
    ensures g.State() == TurnStep(old(g.State()))
  {
    TurnStepKeepsInPlay(g.State());
    match g
    case KillerVariant(k) => k.NextPlayer();
    case X01Variant(x) => x.NextPlayer();
    case CricketVariant(c) => c.NextPlayer();
    case SnakesVariant(s) => s.NextPlayer();
  }
}
