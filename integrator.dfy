/** The counters of `handleGameThrow` (games/index.js:184-209, games.js:321-346). The board
    feed re-sends its whole current state on every change; the integrator turns that stream
    of snapshots into one `processThrow` per new dart and one `nextPlayer` per takeout. */
module Integrator {
  import opened Segments

  /** One state message of the feed: the darts on the board now, their count, and the
      latest event. */
  datatype Snapshot = Snapshot(throws: seq<Segment>, numThrows: int, event: string)

  const TakeoutFinished := "Takeout finished"

  /** `throwsInCurrentTurn`, `lastThrowCount`, and the number of `nextPlayer` callbacks
      scheduled with `setTimeout` that have not run yet. */
  datatype Counters = Counters(throwsInCurrentTurn: int, lastThrowCount: int, pending: nat)

  /** The guard of the dispatch: the count went up and there is a dart to take. */
  predicate IsNewThrow(lastThrowCount: int, s: Snapshot)
  {
    s.numThrows > lastThrowCount && |s.throws| > 0
  }

  /** The segment dispatched for a new throw: the last dart of the snapshot. */
  function Latest(s: Snapshot): Segment
    requires |s.throws| > 0
  {
    s.throws[|s.throws| - 1]
  }

  /** The snapshot schedules a `nextPlayer` callback. */
  predicate Schedules(c: Counters, s: Snapshot)
  {
    s.event == TakeoutFinished &&
    (if IsNewThrow(c.lastThrowCount, s) then c.throwsInCurrentTurn + 1 else c.throwsInCurrentTurn) > 0
  }

  /** The counters after `handleGameThrow(s)` with a game in progress. */
  function Observe(c: Counters, s: Snapshot): (r: Counters)
    ensures r.lastThrowCount == s.numThrows
    ensures r.throwsInCurrentTurn == c.throwsInCurrentTurn + (if IsNewThrow(c.lastThrowCount, s) then 1 else 0)
    ensures r.pending == c.pending + (if Schedules(c, s) then 1 else 0)
  {
    var counted := if IsNewThrow(c.lastThrowCount, s) then c.throwsInCurrentTurn + 1 else c.throwsInCurrentTurn;
    var last := s.numThrows;
    var pending := if s.event == TakeoutFinished && counted > 0 then c.pending + 1 else c.pending;
    var last' := if s.numThrows == 0 then 0 else last;
    Counters(counted, last', pending)
  }

  /** The `setTimeout` callback running with a game in progress: `nextPlayer`, then the
      turn's count goes back to zero. */
  function Fire(c: Counters): (r: Counters)
    requires c.pending > 0
    ensures r.throwsInCurrentTurn == 0 && r.lastThrowCount == c.lastThrowCount && r.pending == c.pending - 1
  {
    Counters(0, c.lastThrowCount, c.pending - 1)
  }

  /** The counters after a stream of snapshots with no callback running in between. */
  function Run(c: Counters, ss: seq<Snapshot>): Counters
    decreases |ss|
  {
    if ss == [] then c else Run(Observe(c, ss[0]), ss[1..])
  }

  /** How many `processThrow` calls the stream makes, counted as the integrator goes. */
  function Dispatched(c: Counters, ss: seq<Snapshot>): nat
    decreases |ss|
  {
    if ss == [] then 0
    else (if IsNewThrow(c.lastThrowCount, ss[0]) then 1 else 0) + Dispatched(Observe(c, ss[0]), ss[1..])
  }

  /** The count each snapshot is compared with: the one before it, or the starting count. */
  function Previous(last: int, ss: seq<Snapshot>, k: nat): int
    requires k < |ss|
  {
    if k == 0 then last else ss[k - 1].numThrows
  }

  /** The reference count: the snapshots that carry a dart and a count above the previous
      snapshot's. It looks at neighbouring snapshots only, never at the integrator's state. */
  function Edges(last: int, ss: seq<Snapshot>): nat
    decreases |ss|
  {
    if ss == [] then 0
    else
      var k := |ss| - 1;
      Edges(last, ss[..k]) + (if IsNewThrow(Previous(last, ss, k), ss[k]) then 1 else 0)
  }

  // ---------------------------------------------------------------- properties

  /** After any snapshot, `lastThrowCount` is that snapshot's count. */
  lemma {:induction false} RunRemembersLastCount(c: Counters, ss: seq<Snapshot>)
    requires ss != []
    ensures Run(c, ss).lastThrowCount == ss[|ss| - 1].numThrows
    decreases |ss|
  {
    if |ss| > 1 {
      RunRemembersLastCount(Observe(c, ss[0]), ss[1..]);
    }
  }

  lemma {:induction false} RunSnoc(c: Counters, ss: seq<Snapshot>, s: Snapshot)
    ensures Run(c, ss + [s]) == Observe(Run(c, ss), s)
    ensures Dispatched(c, ss + [s]) ==
              Dispatched(c, ss) + (if IsNewThrow(Run(c, ss).lastThrowCount, s) then 1 else 0)
    decreases |ss|
  {
    if ss == [] {
      assert ss + [s] == [s];
    } else {
      assert (ss + [s])[1..] == ss[1..] + [s];
      RunSnoc(Observe(c, ss[0]), ss[1..], s);
    }
  }

  /** De-duplication: the integrator dispatches exactly for the snapshots whose count rises
      above the previous snapshot's (or the starting count, for the first one). */
  lemma {:induction false} DispatchedIsEdges(c: Counters, ss: seq<Snapshot>)
    ensures Dispatched(c, ss) == Edges(c.lastThrowCount, ss)
    decreases |ss|
  {
    if ss != [] {
      var k := |ss| - 1;
      var front := ss[..k];
      assert ss == front + [ss[k]];
      DispatchedIsEdges(c, front);
      RunSnoc(c, front, ss[k]);
      if k > 0 {
        RunRemembersLastCount(c, front);
      }
      assert forall j :: 0 <= j < k ==> Previous(c.lastThrowCount, front, j) == Previous(c.lastThrowCount, ss, j);
    }
  }

  /** Without a callback in between, every dispatch adds one to the turn's count and nothing
      else does. */
  lemma {:induction false} CountedIsDispatched(c: Counters, ss: seq<Snapshot>)
    ensures Run(c, ss).throwsInCurrentTurn == c.throwsInCurrentTurn + Dispatched(c, ss)
    decreases |ss|
  {
    if ss != [] {
      CountedIsDispatched(Observe(c, ss[0]), ss[1..]);
    }
  }

  /** A re-sent snapshot dispatches nothing: the feed sending counts 0, 1, 1, 2 makes exactly
      two `processThrow` calls. */
  lemma RebroadcastDispatchedOnce(d1: Segment, d2: Segment)
    ensures var ss := [Snapshot([], 0, ""), Snapshot([d1], 1, ""), Snapshot([d1], 1, ""), Snapshot([d1, d2], 2, "")];
      Dispatched(Counters(0, 0, 0), ss) == 2
  {
    var ss := [Snapshot([], 0, ""), Snapshot([d1], 1, ""), Snapshot([d1], 1, ""), Snapshot([d1, d2], 2, "")];
    var c0 := Counters(0, 0, 0);
    var c1 := Observe(c0, ss[0]);
    var c2 := Observe(c1, ss[1]);
    var c3 := Observe(c2, ss[2]);
    assert ss[1..][1..][1..][1..] == [];
    assert Dispatched(c3, ss[1..][1..][1..]) == 1;
    assert Dispatched(c2, ss[1..][1..]) == 1;
    assert Dispatched(c1, ss[1..]) == 2;
  }

  /** A takeout after a counted dart schedules one callback; a takeout with no dart counted
      since the last callback ran schedules nothing. */
  lemma TakeoutSchedulesOnlyAfterDarts(c: Counters, s: Snapshot)
    requires s.event == TakeoutFinished && !IsNewThrow(c.lastThrowCount, s)
    ensures Observe(c, s).pending == if c.throwsInCurrentTurn > 0 then c.pending + 1 else c.pending
    ensures Observe(Fire(c.(pending := c.pending + 1)), s).pending == c.pending
  {
  }

  /** The guard does not stop a second takeout message arriving before the callback runs:
      it schedules a second `nextPlayer`. */
  lemma DoubleTakeoutSchedulesTwice(c: Counters, s: Snapshot)
    requires s.event == TakeoutFinished && c.throwsInCurrentTurn > 0 && !IsNewThrow(c.lastThrowCount, s)
    ensures Run(c, [s, s]).pending == c.pending + 2
  {
    var c1 := Observe(c, s);
    assert [s, s][1..] == [s];
    assert Run(c, [s, s]) == Run(c1, [s]);
    assert [s][1..] == [];
    assert Run(c1, [s]) == Observe(c1, s);
    assert Schedules(c1, s);
  }
}
