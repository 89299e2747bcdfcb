/** Waiting for follower acknowledgements, and what a reached target means. */
module Quorum {
  import opened Entries
  import opened Cluster
  import ClusterProofs

  datatype WaitMode = WaitNone | WaitAll | WaitQuorum

  /** What the waiter sees each time it holds the server's lock. */
  datatype Observation = Observation(followers: set<nat>, acks: map<nat, int>)

  datatype WaitResult = NotRequired | Reached(at: nat, counted: set<nat>) | NobodyLeft(at: nat) | Cancelled

  function RequiredAcks(connected: nat, mode: WaitMode): (n: nat) {
    match mode
    case WaitNone => 0
    case WaitAll => connected
    case WaitQuorum => (connected + 1) / 2
  }

  predicate Acked(o: Observation, n: nat, rev: int) {
    (if n in o.acks then o.acks[n] else 0) >= rev
  }

  /** The followers required at the start that are still connected. */
  function Remaining(obs: seq<Observation>, at: nat): (ns: set<nat>)
    requires 0 < at < |obs|
  {
    obs[0].followers * obs[at].followers
  }

  function AckedOf(o: Observation, ns: set<nat>, rev: int): (r: set<nat>) {
    set n | n in ns && Acked(o, n, rev)
  }

  predicate Counts(o: Observation, required: set<nat>, n: nat, rev: int) {
    n in required && n in o.followers && Acked(o, n, rev)
  }

  predicate Lags(o: Observation, required: set<nat>, n: nat, rev: int) {
    n in required && n in o.followers && !Acked(o, n, rev)
  }

  /** One pass under the lock: stops as soon as target followers have acked. */
  method CountAcks(o: Observation, required: set<nat>, target: nat, rev: int)
    returns (acked: set<nat>, ghost late: set<nat>, pending: nat)
    requires target > 0
    ensures |acked| <= target && pending == |late|
    ensures forall n :: n in acked ==> Counts(o, required, n, rev)
    ensures |acked| < target ==> forall n :: Counts(o, required, n, rev) ==> n in acked
    ensures |acked| < target ==> forall n :: n in late <==> Lags(o, required, n, rev)
  {
    acked, late, pending := {}, {}, 0;
    var todo := required;
    while todo != {}
      invariant todo <= required && |acked| < target && pending == |late|
      invariant forall n :: n in acked <==> n !in todo && Counts(o, required, n, rev)
      invariant forall n :: n in late <==> n !in todo && Lags(o, required, n, rev)
      decreases |todo|
    {
      var n := Pick(todo);
      todo := todo - {n};
      if n in o.followers {
        if Acked(o, n, rev) {
          acked := acked + {n};
          if |acked| >= target {
            return;
          }
        } else {
          late := late + {n};
          pending := pending + 1;
        }
      }
    }
  }

  /** What each outcome of a wait says about what was seen. */
  predicate Waited(obs: seq<Observation>, rev: int, mode: WaitMode, r: WaitResult)
    requires |obs| > 0
  {
    var target := RequiredAcks(|obs[0].followers|, mode);
    match r
    case NotRequired => target == 0
    case Reached(at, counted) =>
      0 < at < |obs| && |counted| == target > 0 && counted <= AckedOf(obs[at], Remaining(obs, at), rev)
    case NobodyLeft(at) =>
      0 < at < |obs| && |AckedOf(obs[at], Remaining(obs, at), rev)| < target &&
      AckedOf(obs[at], Remaining(obs, at), rev) == Remaining(obs, at)
    case Cancelled =>
      forall at :: 0 < at < |obs| ==>
        |AckedOf(obs[at], Remaining(obs, at), rev)| < target && AckedOf(obs[at], Remaining(obs, at), rev) != Remaining(obs, at)
  }

  /** WaitForFollowers: obs[0] is what it sees when called, the others what it
      sees each time it is woken; running out of them is cancellation. */
  method WaitForFollowers(obs: seq<Observation>, rev: int, mode: WaitMode) returns (r: WaitResult)
    requires |obs| > 0
    ensures Waited(obs, rev, mode, r)
  {
    if |obs[0].followers| == 0 {
      return NotRequired;
    }
    var target := RequiredAcks(|obs[0].followers|, mode);
    if target == 0 {
      return NotRequired;
    }
    for at := 1 to |obs|
      invariant forall i :: 0 < i < at ==>
        |AckedOf(obs[i], Remaining(obs, i), rev)| < target && AckedOf(obs[i], Remaining(obs, i), rev) != Remaining(obs, i)
    {
      var acked, late, pending := CountAcks(obs[at], obs[0].followers, target, rev);
      ghost var all := AckedOf(obs[at], Remaining(obs, at), rev);
      assert acked <= all;
      assert |acked| < target ==> acked == all && late == Remaining(obs, at) - all;
      if |acked| >= target {
        return Reached(at, acked);
      }
      if pending == 0 {
        return NobodyLeft(at);
      }
    }
    return Cancelled;
  }

  /** With the leader, a reached quorum is a strict majority of the leader and the
      followers connected when the wait began; in "all" mode it is all of them. */
  lemma ReachedIsMajority(followers: set<nat>, counted: set<nat>, mode: WaitMode)
    requires counted <= followers && |counted| == RequiredAcks(|followers|, mode)
    ensures mode == WaitQuorum ==> 2 * (|counted| + 1) > |followers| + 1
    ensures mode == WaitAll ==> counted == followers
  {
    assert |followers - counted| == |followers| - |counted|;
    assert mode == WaitAll ==> followers - counted == {};
  }

  /** And it waits for no more than it takes: one ACK fewer would be no majority with
      the leader. */
  lemma QuorumIsLeast(connected: nat, fewer: nat)
    ensures fewer < RequiredAcks(connected, WaitQuorum) ==> 2 * (fewer + 1) <= connected + 1
    ensures fewer >= RequiredAcks(connected, WaitQuorum) ==> 2 * (fewer + 1) > connected + 1
    ensures RequiredAcks(connected, WaitNone) == 0 && RequiredAcks(connected, WaitAll) == connected
  {
  }

  /** What a waiter sees of the server. */
  function Seen(w: World): (o: Observation) {
    Observation(w.server.followers.Keys, w.server.acks)
  }

  /** Node n durably holds every committed entry up to rev that is not part of the
      state it started from. */
  ghost predicate HoldsUpTo(w: World, n: nat, rev: int) {
    n in w.nodes && forall s :: s in w.log && w.nodes[n].base <= s <= rev ==> w.log[s] in w.nodes[n].durable
  }

  lemma CountedAreDurable(w: World, steps: seq<Step>, n: nat, rev: int)
    requires ClusterProofs.Start(w) && rev > 0 && Acked(Seen(After(w, steps)), n, rev)
    ensures HoldsUpTo(After(w, steps), n, rev)
  {
    ClusterProofs.AcksAreDurable(w, steps, n);
  }

  /** The run is observed after times[0], times[1], ... of its steps. */
  ghost function Watched(w: World, steps: seq<Step>, times: seq<nat>): (obs: seq<Observation>)
    requires forall i :: 0 <= i < |times| ==> times[i] <= |steps|
  {
    seq(|times|, i requires 0 <= i < |times| => Seen(After(w, steps[..times[i]])))
  }

  /** When a wait for rev that watches a run ends by reaching its target, every
      counted follower is connected and durably holds all that was committed up to
      rev, and with the leader they are a strict majority of those connected when
      the wait began; in "all" mode they are all of them. */
  lemma ReachedIsDurable(w: World, steps: seq<Step>, times: seq<nat>, rev: int, mode: WaitMode, at: nat, counted: set<nat>)
    requires ClusterProofs.Start(w) && rev > 0 && |times| > 0 && forall i :: 0 <= i < |times| ==> times[i] <= |steps|
    requires Waited(Watched(w, steps, times), rev, mode, Reached(at, counted))
    ensures 0 < at < |times|
    ensures var asked, now := After(w, steps[..times[0]]).server.followers.Keys, After(w, steps[..times[at]]);
            && (forall n :: n in counted ==> n in asked && n in now.server.followers && HoldsUpTo(now, n, rev))
            && (mode == WaitQuorum ==> 2 * (|counted| + 1) > |asked| + 1)
            && (mode == WaitAll ==> counted == asked)
  {
    var asked, now := After(w, steps[..times[0]]).server.followers.Keys, After(w, steps[..times[at]]);
    var obs := Watched(w, steps, times);
    assert obs[0] == Seen(After(w, steps[..times[0]])) && obs[at] == Seen(now);
    ReachedIsMajority(asked, counted, mode);
    forall n | n in counted ensures HoldsUpTo(now, n, rev) {
      CountedAreDurable(w, steps[..times[at]], n, rev);
    }
  }
}
