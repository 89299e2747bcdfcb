/** A watcher goroutine beside the goroutine that applies entries. */
module Watchers {
  import opened Entries
  import opened Mvcc
  import opened StoreState
  import opened StoreProofs
  import opened StoreReads
  import opened Ranges
  import opened Watch

  // ------------------------------------------------------------ the history

  lemma {:induction false} NothingBefore(es: seq<Entry>, prefix: Key, fromRev: int, toRev: int)
    requires ValidLog(es) && (CurrentRev(es) < fromRev || toRev < fromRev)
    ensures History(es, prefix, fromRev, toRev) == []
  {
    if es != [] { NothingBefore(es[..|es| - 1], prefix, fromRev, toRev); }
  }

  lemma HistoryLast(es: seq<Entry>, prefix: Key, fromRev: int, toRev: int)
    requires es != []
    ensures History(es, prefix, fromRev, toRev) ==
            History(es[..|es| - 1], prefix, fromRev, toRev) + EntryEvents(es[|es| - 1], prefix, fromRev, toRev)
  {
  }

  lemma EntrySplits(e: Entry, prefix: Key, fromRev: int, mid: int, toRev: int)
    requires fromRev <= mid + 1 && mid <= toRev
    ensures EntryEvents(e, prefix, fromRev, toRev) == EntryEvents(e, prefix, fromRev, mid) + EntryEvents(e, prefix, mid + 1, toRev)
    ensures EntryEvents(e, prefix, fromRev, mid) == [] || (IsData(e) && e.revision <= mid)
  {
  }

  lemma NothingAfterLast(init: seq<Entry>, e: Entry, prefix: Key, fromRev: int, mid: int, toRev: int)
    requires ValidLog(init) && (IsData(e) ==> e.revision > CurrentRev(init))
    requires EntryEvents(e, prefix, fromRev, mid) == [] || (IsData(e) && e.revision <= mid)
    ensures History(init, prefix, mid + 1, toRev) == [] || EntryEvents(e, prefix, fromRev, mid) == []
  {
    if IsData(e) && e.revision <= mid { NothingBefore(init, prefix, mid + 1, toRev); }
  }

  /** Adjoining ranges of revisions adjoin in the history. */
  lemma {:induction false} HistorySplits(es: seq<Entry>, prefix: Key, fromRev: int, mid: int, toRev: int)
    requires ValidLog(es) && fromRev <= mid + 1 && mid <= toRev
    ensures History(es, prefix, fromRev, toRev) ==
            History(es, prefix, fromRev, mid) + History(es, prefix, mid + 1, toRev)
  {
    if es != [] {
      var init, e := es[..|es| - 1], es[|es| - 1];
      HistorySplits(init, prefix, fromRev, mid, toRev);
      HistoryLast(es, prefix, fromRev, toRev);
      HistoryLast(es, prefix, fromRev, mid);
      HistoryLast(es, prefix, mid + 1, toRev);
      EntrySplits(e, prefix, fromRev, mid, toRev);
      NothingAfterLast(init, e, prefix, fromRev, mid, toRev);
      EventsJoin(History(init, prefix, fromRev, mid), History(init, prefix, mid + 1, toRev),
                 EntryEvents(e, prefix, fromRev, mid), EntryEvents(e, prefix, mid + 1, toRev));
    }
  }

  lemma EventsJoin(a: seq<Event>, b: seq<Event>, x: seq<Event>, y: seq<Event>)
    requires b == [] || x == []
    ensures (a + b) + (x + y) == (a + x) + (b + y)
  {
  }

  /** Entries applied later do not change the history up to the current revision. */
  lemma {:induction false} HistoryStable(hist: seq<Entry>, es: seq<Entry>, prefix: Key, fromRev: int, toRev: int)
    requires ValidLog(hist + es) && (toRev <= CurrentRev(hist) || toRev < fromRev)
    ensures ValidLog(hist) && CurrentRev(hist) <= CurrentRev(hist + es)
    ensures History(hist + es, prefix, fromRev, toRev) == History(hist, prefix, fromRev, toRev)
  {
    if es == [] {
      assert hist + es == hist;
    } else {
      SplitLast(hist, es);
      HistoryStable(hist, es[..|es| - 1], prefix, fromRev, toRev);
    }
  }

  // -------------------------------------------------------------- the watcher

  /** Where watchLoop stands: waiting for nextRev, holding the revision it
      loaded, or sending what it scanned. */
  datatype Phase = Waiting | Loaded(cur: int) | Sending(cur: int, unsent: seq<Event>)

  datatype Watcher = Watcher(prefix: Key, startRev: int, nextRev: int, phase: Phase, delivered: seq<Event>)

  /** The shared store, the entries applied to it so far, and the watcher. */
  datatype World = World(store: State, hist: seq<Entry>, w: Watcher)

  datatype Step = Apply(es: seq<Entry>, recover: bool) | Load | Scan | Send | Finish

  ghost predicate Enabled(c: World, step: Step) {
    match step
    case Apply(es, _) => ValidLog(c.hist + es)
    case Load => c.w.phase.Waiting? && c.store.currentRev >= c.w.nextRev
    case Scan => c.w.phase.Loaded?
    case Send => c.w.phase.Sending? && c.w.phase.unsent != []
    case Finish => c.w.phase.Sending? && c.w.phase.unsent == []
  }

  ghost function Take(c: World, step: Step): (c': World)
    requires Enabled(c, step)
  {
    var w := c.w;
    match step
    case Apply(es, recover) => c.(store := ApplyBatch(c.store, es, recover), hist := c.hist + es)
    case Load => c.(w := w.(phase := Loaded(c.store.currentRev)))
    case Scan => c.(w := w.(phase := Sending(w.phase.cur, ScanEvents(c.store.db.log, w.prefix, w.nextRev, w.phase.cur))))
    case Send => c.(w := w.(phase := Sending(w.phase.cur, w.phase.unsent[1..]), delivered := w.delivered + [w.phase.unsent[0]]))
    case Finish => c.(w := w.(phase := Waiting, nextRev := w.phase.cur + 1))
  }

  /** A run whose scans all happen while no compaction is above nextRev. */
  ghost predicate Run(c: World, steps: seq<Step>)
    decreases |steps|
  {
    steps == [] ||
    (Enabled(c, steps[0])
     && (steps[0].Scan? ==> MaxCompact(c.hist) <= c.w.nextRev)
     && Run(Take(c, steps[0]), steps[1..]))
  }

  ghost function After(c: World, steps: seq<Step>): (c': World)
    requires Run(c, steps)
    decreases |steps|
  {
    if steps == [] then c else After(Take(c, steps[0]), steps[1..])
  }

  /** Node.Watch: 0 means from now on, N means from revision N inclusive. */
  function Start(store: State, prefix: Key, startRev: int): (r: Option<Watcher>)
    ensures r.None? <==> 0 < startRev <= store.compactRev
    ensures r.Some? ==> r.value.prefix == prefix && r.value.startRev + 1 == First(store, startRev)
  {
    if startRev > 0 && startRev <= store.compactRev then None
    else
      var last := if startRev == 0 then store.currentRev else startRev - 1;
      Some(Watcher(prefix, last, last + 1, Waiting, []))
  }

  /** The first revision a watch started with startRev is to deliver. */
  function First(store: State, startRev: int): (rev: int) {
    if startRev == 0 then store.currentRev + 1 else startRev
  }

  /** The revision up to which the watcher has everything, sent or in hand. */
  function Reached(w: Watcher): (rev: int) {
    if w.phase.Sending? then w.phase.cur else w.nextRev - 1
  }

  function InHand(w: Watcher): (evs: seq<Event>) {
    if w.phase.Sending? then w.phase.unsent else []
  }

  /** Delivered so far plus in hand is the history up to the reached revision. */
  ghost predicate Told(hist: seq<Entry>, w: Watcher) {
    && ValidLog(hist)
    && w.startRev < w.nextRev
    && (Reached(w) == w.startRev || Reached(w) <= CurrentRev(hist))
    && (!w.phase.Waiting? ==> w.nextRev <= w.phase.cur <= CurrentRev(hist))
    && w.delivered + InHand(w) == History(hist, w.prefix, w.startRev + 1, Reached(w))
  }

  ghost predicate UpToDate(c: World) {
    Represents(c.store, c.hist) && Told(c.hist, c.w)
  }

  lemma ToldAtStart(store: State, hist: seq<Entry>, prefix: Key, startRev: int)
    requires ValidLog(hist) && Start(store, prefix, startRev).Some?
    ensures Told(hist, Start(store, prefix, startRev).value)
  {
    var w := Start(store, prefix, startRev).value;
    NothingBefore(hist, prefix, w.startRev + 1, w.startRev);
  }

  lemma ToldAfterApply(hist: seq<Entry>, w: Watcher, es: seq<Entry>)
    requires Told(hist, w) && ValidLog(hist + es)
    ensures Told(hist + es, w)
  {
    HistoryStable(hist, es, w.prefix, w.startRev + 1, Reached(w));
  }

  lemma ToldBefore(hist: seq<Entry>, w: Watcher)
    requires Told(hist, w) && !w.phase.Sending?
    ensures w.delivered == History(hist, w.prefix, w.startRev + 1, w.nextRev - 1)
  {
    assert w.delivered + [] == w.delivered;
  }

  lemma ToldAfterScan(hist: seq<Entry>, w: Watcher, evs: seq<Event>)
    requires Told(hist, w) && w.phase.Loaded? && evs == History(hist, w.prefix, w.nextRev, w.phase.cur)
    ensures Told(hist, w.(phase := Sending(w.phase.cur, evs)))
  {
    ToldBefore(hist, w);
    HistorySplits(hist, w.prefix, w.startRev + 1, w.nextRev - 1, w.phase.cur);
    ToldSending(hist, w, w.phase.cur, evs);
  }

  lemma ToldSending(hist: seq<Entry>, w: Watcher, cur: int, evs: seq<Event>)
    requires ValidLog(hist) && w.startRev < w.nextRev <= cur <= CurrentRev(hist)
    requires w.delivered + evs == History(hist, w.prefix, w.startRev + 1, cur)
    ensures Told(hist, w.(phase := Sending(cur, evs)))
  {
  }

  lemma ToldAfterSend(hist: seq<Entry>, w: Watcher)
    requires Told(hist, w) && w.phase.Sending? && w.phase.unsent != []
    ensures var u := w.phase.unsent;
            Told(hist, w.(phase := Sending(w.phase.cur, u[1..]), delivered := w.delivered + [u[0]]))
  {
    var u := w.phase.unsent;
    assert w.delivered + [u[0]] + u[1..] == w.delivered + u;
  }

  lemma StepKeeps(c: World, step: Step)
    requires UpToDate(c) && Enabled(c, step) && (step.Scan? ==> MaxCompact(c.hist) <= c.w.nextRev)
    ensures UpToDate(Take(c, step))
  {
    match step
    case Apply(es, recover) =>
      ToldAfterApply(c.hist, c.w, es);
      ApplyRepresents(c.store, c.hist, es, recover);
    case Scan =>
      CompactBelowMax(c.hist);
      ScanIsHistory(c.store, c.hist, c.w.prefix, c.w.nextRev, c.w.phase.cur);
      ToldAfterScan(c.hist, c.w, ScanEvents(c.store.db.log, c.w.prefix, c.w.nextRev, c.w.phase.cur));
    case Send => ToldAfterSend(c.hist, c.w);
    case _ =>
  }

  lemma {:induction false} RunKeeps(c: World, steps: seq<Step>)
    requires UpToDate(c) && Run(c, steps)
    ensures UpToDate(After(c, steps))
    decreases |steps|
  {
    if steps != [] {
      StepKeeps(c, steps[0]);
      RunKeeps(Take(c, steps[0]), steps[1..]);
    }
  }

  lemma RunTold(c0: World, prefix: Key, startRev: int, steps: seq<Step>, c: World)
    requires Represents(c0.store, c0.hist) && Start(c0.store, prefix, startRev) == Some(c0.w)
    requires Run(c0, steps) && c == After(c0, steps)
    ensures Told(c.hist, c.w) && c.w.prefix == prefix && c.w.startRev + 1 == First(c0.store, startRev)
  {
    ToldAtStart(c0.store, c0.hist, prefix, startRev);
    RunKeeps(c0, steps);
    WatcherFixed(c0, steps);
  }

  /** The watcher has been sent a prefix of the matching writes from first on; all of
      them up to the revision before nextRev when it waits, and all there are when it
      waits for a revision that is not there yet. */
  ghost predicate DeliveredExactly(hist: seq<Entry>, w: Watcher, prefix: Key, first: int) {
    && w.delivered <= History(hist, prefix, first, CurrentRev(hist))
    && (w.phase.Waiting? ==> w.delivered == History(hist, prefix, first, w.nextRev - 1))
    && (w.phase.Waiting? && CurrentRev(hist) < w.nextRev ==> w.delivered == History(hist, prefix, first, CurrentRev(hist)))
  }

  lemma HistoryUpTo(hist: seq<Entry>, prefix: Key, first: int, toRev: int)
    requires ValidLog(hist) && first - 1 <= toRev && (toRev == first - 1 || toRev <= CurrentRev(hist))
    ensures History(hist, prefix, first, toRev) <= History(hist, prefix, first, CurrentRev(hist))
    ensures CurrentRev(hist) <= toRev ==> History(hist, prefix, first, toRev) == History(hist, prefix, first, CurrentRev(hist))
  {
    if toRev <= CurrentRev(hist) {
      HistorySplits(hist, prefix, first, toRev, CurrentRev(hist));
    } else {
      NothingBefore(hist, prefix, first, toRev);
      NothingBefore(hist, prefix, first, CurrentRev(hist));
    }
  }

  lemma DeliveredIsPrefix(hist: seq<Entry>, w: Watcher, prefix: Key, first: int)
    requires Told(hist, w) && w.prefix == prefix && w.startRev + 1 == first
    ensures DeliveredExactly(hist, w, prefix, first)
  {
    HistoryUpTo(hist, w.prefix, w.startRev + 1, Reached(w));
    if w.phase.Waiting? { ToldBefore(hist, w); }
  }

  /** Whatever is applied meanwhile, a watch from startRev is sent the matching writes
      from that revision on, or from the next one when it is 0, in order, with nothing
      missing and nothing twice. */
  lemma WatchDeliversHistory(c0: World, prefix: Key, startRev: int, steps: seq<Step>, c: World)
    requires Represents(c0.store, c0.hist) && Start(c0.store, prefix, startRev) == Some(c0.w)
    requires Run(c0, steps) && c == After(c0, steps)
    ensures DeliveredExactly(c.hist, c.w, prefix, if startRev == 0 then c0.store.currentRev + 1 else startRev)
  {
    RunTold(c0, prefix, startRev, steps, c);
    DeliveredIsPrefix(c.hist, c.w, prefix, if startRev == 0 then c0.store.currentRev + 1 else startRev);
  }

  /** The start revision and prefix of a watcher never change. */
  lemma {:induction false} WatcherFixed(c: World, steps: seq<Step>)
    requires Run(c, steps)
    ensures After(c, steps).w.startRev == c.w.startRev && After(c, steps).w.prefix == c.w.prefix
    decreases |steps|
  {
    if steps != [] { WatcherFixed(Take(c, steps[0]), steps[1..]); }
  }

  // ------------------------------------------------ what a receiver can make of it

  /** A copy of the state that a receiver of events keeps. */
  function Fed(v: View, ev: Event): (v': View) {
    match ev
    case PutEvent(kv) => v[kv.key := kv]
    case DeleteEvent(kv) => v - {kv.key}
  }

  function FedAll(v: View, evs: seq<Event>): (v': View) {
    if evs == [] then v else Fed(FedAll(v, evs[..|evs| - 1]), evs[|evs| - 1])
  }

  lemma {:induction false} FedMore(v: View, a: seq<Event>, b: seq<Event>)
    ensures FedAll(v, a + b) == FedAll(FedAll(v, a), b)
  {
    if b == [] {
      assert a + b == a;
    } else {
      SplitEnd(a, b);
      FedMore(v, a, b[..|b| - 1]);
      assert (a + b)[..|a + b| - 1] == a + b[..|b| - 1];
    }
  }

  lemma FedOne(v: View, ev: Event)
    ensures FedAll(v, [ev]) == Fed(v, ev)
  {
    assert [ev][..0] == [];
  }

  lemma {:induction false} OpsFed(v: View, v': View, rev: int, ops: seq<SubOp>, prefix: Key, key: Key)
    requires HasPrefix(key, prefix) ==> Lookup(v, key) == Lookup(v', key)
    ensures HasPrefix(key, prefix) ==> Lookup(FedAll(v, OpEvents(rev, ops, prefix)), key) == Lookup(ApplySubs(v', rev, ops), key)
    ensures !HasPrefix(key, prefix) ==> Lookup(FedAll(v, OpEvents(rev, ops, prefix)), key) == Lookup(v, key)
  {
    if ops != [] {
      var init, o := ops[..|ops| - 1], ops[|ops| - 1];
      OpsFed(v, v', rev, init, prefix, key);
      if HasPrefix(o.key, prefix) {
        var kv := RecordToKV(o.key, rev, RecordOf(o));
        var ev := if o.op == OpDelete then DeleteEvent(kv) else PutEvent(kv);
        FedMore(v, OpEvents(rev, init, prefix), [ev]);
        FedOne(FedAll(v, OpEvents(rev, init, prefix)), ev);
      } else {
        assert OpEvents(rev, ops, prefix) == OpEvents(rev, init, prefix);
      }
    }
  }

  lemma ViewAtLast(es: seq<Entry>, rev: int)
    requires es != []
    ensures ViewAt(es, rev) ==
            if IsData(es[|es| - 1]) && es[|es| - 1].revision <= rev then ApplyEntry(ViewAt(es[..|es| - 1], rev), es[|es| - 1])
            else ViewAt(es[..|es| - 1], rev)
  {
  }

  lemma FedEntry(base: View, evs: seq<Event>, v: View, e: Entry, prefix: Key, key: Key)
    requires Lookup(FedAll(base, evs), key) == Lookup(if HasPrefix(key, prefix) then v else base, key)
    ensures Lookup(FedAll(base, evs + OpEvents(e.revision, SubOps(e), prefix)), key) ==
            Lookup(if HasPrefix(key, prefix) then ApplyEntry(v, e) else base, key)
  {
    FedMore(base, evs, OpEvents(e.revision, SubOps(e), prefix));
    OpsFed(FedAll(base, evs), v, e.revision, SubOps(e), prefix, key);
  }

  /** Fed with the events of a range of revisions, a copy of the state before them
      becomes the state after them, on the keys of the prefix and on no others. */
  lemma {:induction false} EventsRebuildState(es: seq<Entry>, prefix: Key, fromRev: int, toRev: int, key: Key)
    requires ValidLog(es) && fromRev <= toRev + 1
    ensures Lookup(FedAll(ViewAt(es, fromRev - 1), History(es, prefix, fromRev, toRev)), key) ==
            Lookup(ViewAt(es, if HasPrefix(key, prefix) then toRev else fromRev - 1), key)
  {
    if es != [] {
      var init, e := es[..|es| - 1], es[|es| - 1];
      EventsRebuildState(init, prefix, fromRev, toRev, key);
      HistoryLast(es, prefix, fromRev, toRev);
      ViewAtLast(es, fromRev - 1);
      ViewAtLast(es, toRev);
      if IsData(e) && e.revision < fromRev {
        NothingBefore(init, prefix, fromRev, toRev);
        ViewAtCurrent(init, fromRev - 1);
        ViewAtCurrent(init, toRev);
      } else if IsData(e) && e.revision <= toRev {
        FedEntry(ViewAt(init, fromRev - 1), History(init, prefix, fromRev, toRev), ViewAt(init, toRev), e, prefix, key);
      } else {
        var evs := History(init, prefix, fromRev, toRev);
        assert History(es, prefix, fromRev, toRev) == evs + [] == evs;
      }
    }
  }

  lemma RebuiltNow(hist: seq<Entry>, w: Watcher, prefix: Key, first: int, key: Key)
    requires ValidLog(hist) && HasPrefix(key, prefix) && w.delivered == History(hist, prefix, first, CurrentRev(hist))
    ensures Lookup(FedAll(ViewAt(hist, first - 1), w.delivered), key) == Lookup(ViewOf(hist), key)
  {
    if first <= CurrentRev(hist) + 1 {
      EventsRebuildState(hist, prefix, first, CurrentRev(hist), key);
      ViewAtCurrent(hist, CurrentRev(hist));
    } else {
      NothingBefore(hist, prefix, first, CurrentRev(hist));
      ViewAtCurrent(hist, first - 1);
    }
  }

  lemma ToldRebuilds(hist: seq<Entry>, w: Watcher, prefix: Key, first: int, key: Key)
    requires Told(hist, w) && w.prefix == prefix && w.startRev + 1 == first && HasPrefix(key, prefix)
    requires w.phase.Waiting? && CurrentRev(hist) < w.nextRev
    ensures Lookup(FedAll(ViewAt(hist, first - 1), w.delivered), key) == Lookup(ViewOf(hist), key)
  {
    DeliveredIsPrefix(hist, w, prefix, first);
    RebuiltNow(hist, w, prefix, first, key);
  }

  /** So whoever has the state before the first revision of a watch, and feeds it what
      is delivered, has the current state of the prefix whenever the watcher waits for a
      revision that is not there yet. */
  lemma WatcherRebuildsState(c0: World, prefix: Key, startRev: int, steps: seq<Step>, c: World, key: Key)
    requires Represents(c0.store, c0.hist) && Start(c0.store, prefix, startRev) == Some(c0.w) && HasPrefix(key, prefix)
    requires Run(c0, steps) && c == After(c0, steps) && c.w.phase.Waiting? && CurrentRev(c.hist) < c.w.nextRev
    ensures Lookup(FedAll(ViewAt(c.hist, First(c0.store, startRev) - 1), c.w.delivered), key) == Lookup(ViewOf(c.hist), key)
  {
    RunTold(c0, prefix, startRev, steps, c);
    ToldRebuilds(c.hist, c.w, prefix, First(c0.store, startRev), key);
  }
}
