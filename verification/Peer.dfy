/** The leader's stream server and the follower's stream client, as they change
    their own state. */
module Peer {
  import opened Entries
  import opened Replication
  import opened Cluster

  class EntryBuffer {
    const cap: nat
    var entries: seq<Entry>

    constructor (n: nat)
      ensures cap == n && entries == []
    {
      cap, entries := n, [];
    }

    method Push(e: Entry)
      modifies this
      ensures entries == Pushed(old(entries), cap, e)
      ensures |old(entries)| < cap ==> |entries| == |old(entries)| + 1
      ensures |old(entries)| >= cap ==> |entries| == cap
      ensures entries == (old(entries) + [e])[|old(entries)| + 1 - |entries|..]
    {
      entries := entries + [e];
      if |entries| > cap {
        entries := entries[|entries| - cap..];
      }
    }

    method EntriesSince(fromRev: int) returns (r: Option<seq<Entry>>)
      ensures r == Since(entries, fromRev)
    {
      if |entries| == 0 {
        return Some([]);
      }
      if fromRev < entries[0].Sequence() {
        return None;
      }
      for i := 0 to |entries|
        invariant forall j :: 0 <= j < i ==> entries[j].Sequence() < fromRev
      {
        if entries[i].Sequence() >= fromRev {
          FirstFromIs(entries, fromRev, i);
          return Some(entries[i..]);
        }
      }
      FirstFromIs(entries, fromRev, |entries|);
      assert entries[|entries|..] == [];
      return Some([]);
    }
  }

  lemma FirstFromIs(buf: seq<Entry>, fromRev: int, i: nat)
    requires i <= |buf| && (forall j :: 0 <= j < i ==> buf[j].Sequence() < fromRev)
    requires i < |buf| ==> buf[i].Sequence() >= fromRev
    ensures FirstFrom(buf, fromRev) == i
  {
  }

  predicate Injective(m: map<nat, nat>) {
    forall a, b :: a in m && b in m && a != b ==> m[a] != m[b]
  }

  class PeerServer {
    var startRev: int
    const buf: EntryBuffer
    var pending: seq<Entry>
    var followers: map<nat, nat>
    var chans: map<nat, Chan>
    var acks: map<nat, int>

    ghost function Abs(): (s: Server)
      reads this, buf
    {
      Server(startRev, buf.cap, pending, buf.entries, followers, chans, acks)
    }

    /** Every connected follower has a channel of its own. */
    ghost predicate Valid()
      reads this
    {
      Injective(followers) && followers.Values <= chans.Keys
    }

    constructor (bufferCap: nat)
      ensures Valid() && fresh(buf) && Abs() == Server(0, bufferCap, [], [], map[], map[], map[])
    {
      buf := new EntryBuffer(bufferCap);
      startRev, pending, followers, chans, acks := 0, [], map[], map[], map[];
    }

    /** Offers m to every follower; those whose channel is full are kicked. */
    method SendAll(m: Msg)
      requires Valid()
      modifies this`followers, this`chans
      ensures Valid() && Abs() == FanOut(old(Abs()), m)
    {
      ghost var s, done := Abs(), {};
      var todo := followers.Keys;
      while todo != {}
        invariant Partly(s, m, todo, done, followers, chans)
        decreases |todo|
      {
        var n := Pick(todo);
        PartlyMore(s, m, todo, done, followers, chans, n);
        done := done + {followers[n]};
        OfferTo(n, m);
        todo := todo - {n};
      }
      PartlyAll(s, m, done, followers, chans);
    }

    method OfferTo(n: nat, m: Msg)
      requires n in followers && followers[n] in chans
      modifies this`followers, this`chans
      ensures var c := old(followers)[n];
              && chans == old(chans)[c := Offer(old(chans)[c], m)]
              && followers == if Full(old(chans)[c]) then old(followers) - {n} else old(followers)
    {
      var c := followers[n];
      if |chans[c].queue| < CHANNEL_CAP {
        chans := chans[c := chans[c].(queue := chans[c].queue + [m])];
      } else {
        chans := chans[c := chans[c].(closed := true)];
        followers := followers - {n};
      }
    }

    method Broadcast(e: Entry)
      requires Valid()
      modifies this
      ensures Valid() && Abs() == Replication.Broadcast(old(Abs()), e)
    {
      pending := pending + [e];
      SendAll(EntryMsg(e));
    }

    /** Moves the committed range of pending entries to the replay buffer. */
    method Settle(start: int, rev: int)
      modifies this`pending, buf
      ensures (pending, buf.entries) == Sorted(old(pending), old(buf.entries), buf.cap, start, rev)
    {
      var keep: seq<Entry> := [];
      for i := 0 to |pending|
        invariant pending == old(pending)
        invariant (keep, buf.entries) == Sorted(old(pending)[..i], old(buf.entries), buf.cap, start, rev)
      {
        var e := pending[i];
        assert pending[..i + 1][..i] == pending[..i];
        if e.Sequence() < start {
        } else if e.Sequence() <= rev {
          buf.Push(e);
        } else {
          keep := keep + [e];
        }
      }
      assert pending[..|pending|] == pending;
      pending := keep;
    }

    method BroadcastCommit(start: int, rev: int)
      requires Valid()
      modifies this, buf
      ensures Valid() && Abs() == Replication.BroadcastCommit(old(Abs()), start, rev)
    {
      Settle(start, rev);
      SendAll(CommitMsg(start, rev));
    }

    /** The part of Follow under the lock: refuses, or snapshots the buffer and
        registers the live channel c. */
    method Register(n: nat, fromRev: int, c: nat) returns (snapshot: Option<seq<Entry>>, maxSent: int)
      requires Valid() && c !in chans
      modifies this
      ensures Valid()
      ensures snapshot == if startRev > 0 && fromRev < startRev then None else Since(buf.entries, fromRev)
      ensures snapshot.None? ==> Abs() == old(Abs())
      ensures snapshot.Some? ==>
                Abs() == old(Abs()).(followers := old(followers)[n := c], chans := old(chans)[c := Chan([], false)])
      ensures snapshot.Some? ==>
                maxSent == if snapshot.value == [] then fromRev - 1 else snapshot.value[|snapshot.value| - 1].Sequence()
    {
      maxSent := fromRev - 1;
      if startRev > 0 && fromRev < startRev {
        return None, maxSent;
      }
      snapshot := buf.EntriesSince(fromRev);
      if snapshot.None? {
        return;
      }
      chans := chans[c := Chan([], false)];
      followers := followers[n := c];
      if |snapshot.value| > 0 {
        maxSent := snapshot.value[|snapshot.value| - 1].Sequence();
      }
    }

    /** The ACK reader of the stream that owns channel c. */
    method ReceiveAck(n: nat, c: nat, rev: int)
      modifies this`acks
      ensures var live := n in followers && followers[n] == c;
              var known := if n in old(acks) then old(acks)[n] else 0;
              acks == if live && rev > known then old(acks)[n := rev] else old(acks)
    {
      if n !in followers || followers[n] != c {
        return;
      }
      if rev > (if n in acks then acks[n] else 0) {
        acks := acks[n := rev];
      }
    }
  }

  // ------------------------------------------------------------------ the client

  method Leading(staged: seq<Entry>, bound: int) returns (n: nat)
    ensures n == CountBelow(staged, bound)
  {
    n := 0;
    while n < |staged| && staged[n].Sequence() < bound
      invariant n <= |staged| && forall i :: 0 <= i < n ==> staged[i].Sequence() < bound
    {
      n := n + 1;
    }
    CountBelowIs(staged, bound, n);
  }

  method IsRun(batch: seq<Entry>, first: int) returns (ok: bool)
    ensures ok == Consecutive(batch, first)
  {
    for i := 0 to |batch|
      invariant forall j :: 0 <= j < i ==> batch[j].Sequence() == first + j
    {
      if batch[i].Sequence() != first + i {
        return false;
      }
    }
    return true;
  }

  /** The commit-marker branch of followOnce on the staged entries. */
  method CutBatch(staged: seq<Entry>, from: int, start: int, rev: int) returns (v: Verdict)
    ensures v == OnCommit(staged, from, start, rev)
  {
    var first := if start == 0 then rev else start;
    if rev < from {
      return Ignored;
    }
    var drop := Leading(staged, first);
    v := CutRun(staged[drop..], first, rev);
  }

  method CutRun(left: seq<Entry>, first: int, rev: int) returns (v: Verdict)
    ensures v == Cut(left, first, rev)
  {
    var cut := Leading(left, rev + 1);
    if cut == 0 || left[0].Sequence() != first || left[cut - 1].Sequence() != rev {
      assert cut == 0 || left[..cut][0] == left[0];
      return Gap;
    }
    var ok := IsRun(left[..cut], first);
    if !ok {
      return Gap;
    }
    return Batch(left[..cut], left[cut..]);
  }

  /** A follower with one open stream: its staging area, the ACKs it has sent,
      its WAL and what it has applied. */
  class Client {
    const link: Link
    const id: nat
    const base: int
    var staged: seq<Entry>
    var from: int
    var acked: seq<int>
    var wal: seq<Entry>
    var applied: seq<Entry>
    var want: int
    var open: bool

    ghost function Node(): (f: Follower)
      reads this
    {
      Follower(base, applied, (set e | e in wal), want, if open then Some(id) else None)
    }

    ghost function Stream(): (l: Link)
      reads this
    {
      link.(net := [], staged := staged, from := from, ackNet := acked)
    }

    /** Connecting as node with the stream l. */
    constructor (f: Follower, held: seq<Entry>, streamId: nat, l: Link)
      requires f.durable == set e | e in held
      ensures Node() == f.(link := Some(streamId)) && Stream() == l.(net := []) && open
    {
      link, id, base := l, streamId, f.base;
      staged, from, acked := l.staged, l.from, l.ackNet;
      wal, applied, want, open := held, f.applied, f.want, true;
    }

    /** followOnce on one message, with the WAL append, the ACK and the apply
        succeeding or failing as told. */
    method Handle(m: Msg, walOk: bool, ackOk: bool, applyOk: bool)
      requires open
      modifies this
      ensures (Node(), Stream()) == Reacted(old(Node()), old(Stream()).(net := [m]), walOk, ackOk, applyOk)
    {
      assert [m][1..] == [];
      match m
      case EntryMsg(e) => staged := staged + [e];
      case CommitMsg(start, rev) =>
        var v := CutBatch(staged, from, start, rev);
        match v
        case Ignored =>
        case Gap => open, want := false, from;
        case Batch(batch, rest) => TakeBatch(CommitStart(start, rev), batch, rest, walOk, ackOk, applyOk);
    }

    method TakeBatch(start: int, batch: seq<Entry>, rest: seq<Entry>, walOk: bool, ackOk: bool, applyOk: bool)
      requires open && batch != []
      modifies this
      ensures (Node(), Stream()) == TookBatch(old(Node()), old(Stream()), start, batch, rest, walOk, ackOk, applyOk)
    {
      var top := batch[|batch| - 1].Sequence();
      var ok := IsRun(batch, base + |applied|);
      if !ok || !walOk {
        open, want := false, start;
        return;
      }
      wal := wal + batch;
      assert (set e | e in wal) == old(Node()).durable + set e | e in batch;
      if !ackOk {
        open, want := false, if top + 1 > from then top + 1 else from;
        return;
      }
      if top + 1 > from {
        from := top + 1;
      }
      acked := acked + [top];
      staged := rest;
      if !applyOk {
        open, want := false, from;
        return;
      }
      applied := applied + batch;
    }
  }

  // ------------------------------------------------ the fan-out, follower by follower

  ghost predicate Sound(s: Server) {
    Injective(s.followers) && s.followers.Values <= s.chans.Keys
  }

  /** The followers outside todo, whose channels are done, have been served. */
  ghost predicate Partly(s: Server, m: Msg, todo: set<nat>, done: set<nat>, followers: map<nat, nat>, chans: map<nat, Chan>) {
    && Sound(s) && todo <= s.followers.Keys && done <= s.followers.Values && chans.Keys == s.chans.Keys
    && (forall n :: n in s.followers ==> (n !in todo <==> s.followers[n] in done))
    && (forall n :: n in followers ==> n in s.followers && followers[n] == s.followers[n])
    && (forall n :: n in s.followers ==> (n in followers <==> n in todo || !Full(s.chans[s.followers[n]])))
    && (forall c :: c in chans ==> chans[c] == if c in done then Offer(s.chans[c], m) else s.chans[c])
  }

  lemma PartlyMore(s: Server, m: Msg, todo: set<nat>, done: set<nat>, followers: map<nat, nat>, chans: map<nat, Chan>, n: nat)
    requires Partly(s, m, todo, done, followers, chans) && n in todo
    ensures n in followers && followers[n] in chans && chans[followers[n]] == s.chans[followers[n]]
    ensures var c := followers[n];
            Partly(s, m, todo - {n}, done + {c}, if Full(chans[c]) then followers - {n} else followers, chans[c := Offer(chans[c], m)])
  {
    var c := s.followers[n];
    assert c in s.followers.Values;
    assert c !in done;
    var chans' := chans[c := Offer(chans[c], m)];
    forall x | x in chans' ensures chans'[x] == if x in done + {c} then Offer(s.chans[x], m) else s.chans[x] {
    }
    forall x | x in s.followers ensures x !in todo - {n} <==> s.followers[x] in done + {c} {
      assert x != n ==> s.followers[x] != c;
    }
  }

  lemma PartlyAll(s: Server, m: Msg, done: set<nat>, followers: map<nat, nat>, chans: map<nat, Chan>)
    requires Partly(s, m, {}, done, followers, chans)
    ensures followers == FanOut(s, m).followers && chans == FanOut(s, m).chans
    ensures Injective(followers) && followers.Values <= chans.Keys
  {
    forall c | c in s.followers.Values ensures c in done {
      var n :| n in s.followers && s.followers[n] == c;
    }
    var s' := FanOut(s, m);
    forall n | n in s.followers ensures s.followers[n] in s.chans {
      assert s.followers[n] in s.followers.Values;
    }
    assert followers == s'.followers;
    assert chans == s'.chans;
  }
}
