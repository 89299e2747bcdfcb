/** WaitForRevision: waiters sleep on a notify channel that every broadcast
    closes and replaces, while writers raise the revision first and broadcast
    afterwards, in any interleaving. */
module Wakeup {
  /** A waiter is about to take the channel, about to compare the revision,
      asleep on the channel it took, or has returned. */
  datatype Place = Begin | Took(ch: nat) | Asleep(ch: nat) | Returned

  datatype Waiter = Waiter(target: int, at: Place)

  /** Channels are numbered; channel ch is closed when ch < open. Revision
      unannounced says that currentRev was raised since the last broadcast. */
  datatype World = World(currentRev: int, open: nat, unannounced: bool, waiters: map<nat, Waiter>)

  datatype Step =
    | Raise(rev: int)
    | Broadcast
    | Arrive(id: nat, target: int)
    | Advance(id: nat)

  predicate CanAdvance(c: World, id: nat) {
    id in c.waiters &&
    match c.waiters[id].at
    case Begin => true
    case Took(_) => true
    case Asleep(ch) => ch < c.open
    case Returned => false
  }

  predicate Enabled(c: World, step: Step) {
    match step
    case Raise(rev) => rev > c.currentRev
    case Broadcast => true
    case Arrive(id, _) => id !in c.waiters
    case Advance(id) => CanAdvance(c, id)
  }

  /** One step of the waiter's own loop. */
  function Moved(c: World, w: Waiter): (w': Waiter) {
    match w.at
    case Begin => w.(at := Took(c.open))
    case Took(ch) => if c.currentRev >= w.target then w.(at := Returned) else w.(at := Asleep(ch))
    case Asleep(_) => w.(at := Begin)
    case Returned => w
  }

  function Take(c: World, step: Step): (c': World)
    requires Enabled(c, step)
  {
    match step
    case Raise(rev) => c.(currentRev := rev, unannounced := true)
    case Broadcast => c.(open := c.open + 1, unannounced := false)
    case Arrive(id, target) => c.(waiters := c.waiters[id := Waiter(target, Begin)])
    case Advance(id) => c.(waiters := c.waiters[id := Moved(c, c.waiters[id])])
  }

  predicate Run(c: World, steps: seq<Step>)
    decreases |steps|
  {
    steps == [] || (Enabled(c, steps[0]) && Run(Take(c, steps[0]), steps[1..]))
  }

  function After(c: World, steps: seq<Step>): (c': World)
    requires Run(c, steps)
    decreases |steps|
  {
    if steps == [] then c else After(Take(c, steps[0]), steps[1..])
  }

  /** A waiter never holds a channel that does not exist yet, returns only at
      its target, and sleeps on the open channel only below its target or while
      the broadcast that will wake it is still to come. */
  predicate NotLost(c: World, w: Waiter) {
    match w.at
    case Begin => true
    case Took(ch) => ch <= c.open
    case Asleep(ch) => ch <= c.open && (ch == c.open ==> c.currentRev < w.target || c.unannounced)
    case Returned => c.currentRev >= w.target
  }

  predicate NoneLost(c: World) {
    forall id :: id in c.waiters ==> NotLost(c, c.waiters[id])
  }

  lemma {:induction false} RunsLoseNoWakeup(c: World, steps: seq<Step>)
    requires NoneLost(c) && Run(c, steps)
    ensures NoneLost(After(c, steps))
    decreases |steps|
  {
    if steps != [] {
      RunsLoseNoWakeup(Take(c, steps[0]), steps[1..]);
    }
  }

  /** n iterations of one waiter with nobody else moving. */
  function Alone(c: World, id: nat, n: nat): (c': World)
    decreases n
  {
    if n == 0 || !CanAdvance(c, id) then c else Alone(Take(c, Advance(id)), id, n - 1)
  }

  lemma AloneReturns(c: World, id: nat)
    requires NoneLost(c) && id in c.waiters && c.currentRev >= c.waiters[id].target && !c.unannounced
    ensures id in Alone(c, id, 3).waiters && Alone(c, id, 3).waiters[id] == Waiter(c.waiters[id].target, Returned)
  {
    assert NotLost(c, c.waiters[id]);
    if CanAdvance(c, id) {
      var c1 := Take(c, Advance(id));
      if CanAdvance(c1, id) {
        var c2 := Take(c1, Advance(id));
        assert Alone(c1, id, 2) == Alone(c2, id, 1);
        assert CanAdvance(c2, id) ==> Alone(c2, id, 1) == Alone(Take(c2, Advance(id)), id, 0);
      }
    }
  }

  /** Starting with no waiters, wherever a run has left one, once its target is
      reached and announced it returns within three steps of its own loop. */
  lemma ReachedWaiterReturns(rev: int, steps: seq<Step>, c: World, id: nat)
    requires Run(World(rev, 0, false, map[]), steps) && c == After(World(rev, 0, false, map[]), steps)
    requires id in c.waiters && c.currentRev >= c.waiters[id].target && !c.unannounced
    ensures id in Alone(c, id, 3).waiters && Alone(c, id, 3).waiters[id] == Waiter(c.waiters[id].target, Returned)
  {
    RunsLoseNoWakeup(World(rev, 0, false, map[]), steps);
    AloneReturns(c, id);
  }
}
