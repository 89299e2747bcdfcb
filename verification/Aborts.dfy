/** A batch given up by its callers: it is neither logged nor applied, while later
    requests may have been decided on top of it. */
module Aborts {
  import opened Entries
  import opened Mvcc
  import opened Serial
  import opened Pipeline
  import StoreProofs

  // --------------------------------------------------- what a decision looks at

  ghost predicate Reads(req: Request, key: Key) {
    match req
    case Txn(conditions, success, failure) =>
      || (exists i :: 0 <= i < |conditions| && conditions[i].key == key)
      || (exists i :: 0 <= i < |success| && success[i].key == key)
      || (exists i :: 0 <= i < |failure| && failure[i].key == key)
    case Compact(_) => false
    case _ => req.key == key
  }

  ghost predicate AgreeOn(v: View, v': View, req: Request) {
    forall key {:trigger Reads(req, key)} :: Reads(req, key) ==> Lookup(v, key) == Lookup(v', key)
  }

  lemma {:induction false} SameMatches(v: View, v': View, cs: seq<Condition>)
    requires forall i :: 0 <= i < |cs| ==> Lookup(v, cs[i].key) == Lookup(v', cs[i].key)
    ensures AllMatch(v, cs) == AllMatch(v', cs)
  {
    if cs != [] { SameMatches(v, v', cs[..|cs| - 1]); }
  }

  lemma {:induction false} SameActive(v: View, v': View, rev: int, ops: seq<TxnOp>)
    requires forall i :: 0 <= i < |ops| ==> Lookup(v, ops[i].key) == Lookup(v', ops[i].key)
    ensures Active(v, rev, ops) == Active(v', rev, ops)
  {
    if ops != [] { SameActive(v, v', rev, ops[..|ops| - 1]); }
  }

  lemma SameTxn(term: nat, v: View, v': View, rev: int, id: int, req: Request)
    requires req.Txn? && AgreeOn(v, v', req)
    ensures Decide(term, v, rev, id, req) == Decide(term, v', rev, id, req)
  {
    forall i | 0 <= i < |req.conditions| ensures Lookup(v, req.conditions[i].key) == Lookup(v', req.conditions[i].key) {
      assert Reads(req, req.conditions[i].key);
    }
    SameMatches(v, v', req.conditions);
    var ok := AllMatch(v, req.conditions);
    var ops := if ok then req.success else req.failure;
    forall i | 0 <= i < |ops| ensures Lookup(v, ops[i].key) == Lookup(v', ops[i].key) {
      assert Reads(req, ops[i].key);
    }
    SameBranch(term, v, v', rev, id, ok, ops);
    DecideRunsBranch(term, v, rev, id, req, ok);
    DecideRunsBranch(term, v', rev, id, req, ok);
  }

  lemma SameBranch(term: nat, v: View, v': View, rev: int, id: int, ok: bool, ops: seq<TxnOp>)
    requires forall i :: 0 <= i < |ops| ==> Lookup(v, ops[i].key) == Lookup(v', ops[i].key)
    ensures DecideTxn(term, v, rev, id, ok, ops) == DecideTxn(term, v', rev, id, ok, ops)
  {
    SameActive(v, v', rev, ops);
  }

  /** A decision depends on the keys the request reads and on nothing else. */
  lemma SameDecide(term: nat, v: View, v': View, rev: int, id: int, req: Request)
    requires AgreeOn(v, v', req)
    ensures Decide(term, v, rev, id, req) == Decide(term, v', rev, id, req)
  {
    if req.Txn? {
      SameTxn(term, v, v', rev, id, req);
    } else if !req.Compact? {
      assert Reads(req, req.key);
      assert Lookup(v, req.key) == Lookup(v', req.key);
    }
  }

  // ------------------------------------------------- states with and without a part

  ghost predicate Touched(es: seq<Entry>, key: Key) {
    exists i :: 0 <= i < |es| && Writes(es[i], key)
  }

  lemma SameAfter(v: View, v': View, e: Entry, key: Key)
    requires ValidEntry(e) && (Writes(e, key) || Lookup(v, key) == Lookup(v', key))
    ensures Lookup(ApplyEntry(v, e), key) == Lookup(ApplyEntry(v', e), key)
  {
    ApplySubsLookup(v, e.revision, SubOps(e), key);
    ApplySubsLookup(v', e.revision, SubOps(e), key);
    if Writes(e, key) {
      var i :| 0 <= i < |SubOps(e)| && SubOps(e)[i].key == key;
    }
  }

  lemma TouchedBefore(es: seq<Entry>, key: Key)
    requires Touched(es, key) && !Writes(es[|es| - 1], key)
    ensures Touched(es[..|es| - 1], key)
  {
    var init := es[..|es| - 1];
    var i :| 0 <= i < |es| && Writes(es[i], key);
    assert init[i] == es[i];
  }

  lemma ViewLast(x: seq<Entry>, es: seq<Entry>)
    requires es != []
    ensures ViewOf(x + es) == ApplyEntry(ViewOf(x + es[..|es| - 1]), es[|es| - 1])
    ensures ValidLog(x + es) ==> ValidLog(x + es[..|es| - 1]) && ValidEntry(es[|es| - 1])
  {
    StoreProofs.SplitLast(x, es);
  }

  /** What follows decides a key it writes, and leaves others as it found them. */
  lemma {:induction false} SameOnTop(x: seq<Entry>, y: seq<Entry>, es: seq<Entry>, key: Key)
    requires ValidLog(x + es) && (Touched(es, key) || Lookup(ViewOf(x), key) == Lookup(ViewOf(y), key))
    ensures Lookup(ViewOf(x + es), key) == Lookup(ViewOf(y + es), key)
  {
    if es == [] {
      assert x + es == x && y + es == y;
    } else {
      var init, e := es[..|es| - 1], es[|es| - 1];
      ViewLast(x, es);
      ViewLast(y, es);
      if !Writes(e, key) {
        if Touched(es, key) { TouchedBefore(es, key); }
        SameOnTop(x, y, init, key);
      }
      SameAfter(ViewOf(x + init), ViewOf(y + init), e, key);
    }
  }

  /** Leaving out a part changes only keys it wrote. */
  lemma WithoutPart(h: seq<Entry>, a: seq<Entry>, b: seq<Entry>, key: Key)
    requires ValidLog(h + a) && ValidLog(h + a + b) && (!Touched(a, key) || Touched(b, key))
    ensures Lookup(ViewOf(h + a + b), key) == Lookup(ViewOf(h + b), key)
  {
    if !Touched(a, key) {
      forall i | 0 <= i < |a| ensures !Writes(a[i], key) { assert !Touched(a, key); }
      Untouched(h, a, key);
    }
    SameOnTop(h + a, h, b, key);
  }

  lemma {:induction false} ValidWithout(h: seq<Entry>, a: seq<Entry>, b: seq<Entry>)
    requires ValidLog(h + a + b)
    ensures ValidLog(h + b) && CurrentRev(h + b) <= CurrentRev(h + a + b)
  {
    if b == [] {
      assert h + a + b == h + a && h + b == h;
      RevisionsGrow(h, a);
    } else {
      StoreProofs.SplitLast(h + a, b);
      StoreProofs.SplitLast(h, b);
      ValidWithout(h, a, b[..|b| - 1]);
    }
  }

  // ----------------------------------------------------- executing the rest serially

  lemma ExecuteStep(term: nat, log: Log, reqs: seq<Request>, more: seq<Request>, y: Request, l: Log)
    requires more == reqs + [y] && l == Execute(term, log, reqs)
    ensures Execute(term, log, more) == Append(l, Decided(term, l, y).entry)
    ensures Outcomes(term, log, more) == Outcomes(term, log, reqs) + [Decided(term, l, y).outcome]
  {
    ExecuteMore(term, log, reqs, y);
  }

  lemma {:induction false} ExecuteSplit(term: nat, log: Log, xs: seq<Request>, ys: seq<Request>)
    ensures Execute(term, log, xs + ys) == Execute(term, Execute(term, log, xs), ys)
    ensures Outcomes(term, log, xs + ys) == Outcomes(term, log, xs) + Outcomes(term, Execute(term, log, xs), ys)
  {
    if ys == [] {
      assert xs + ys == xs;
    } else {
      var init, y := ys[..|ys| - 1], ys[|ys| - 1];
      ExecuteSplit(term, log, xs, init);
      SplitEnd(xs, ys);
      var l := Execute(term, log, xs + init);
      ExecuteStep(term, log, xs + init, xs + ys, y, l);
      ExecuteStep(term, Execute(term, log, xs), init, ys, y, l);
      Associative(Outcomes(term, log, xs), Outcomes(term, Execute(term, log, xs), init), [Decided(term, l, y).outcome]);
    }
  }

  lemma AgreeDecided(term: nat, l: Log, l': Log, req: Request)
    requires AgreeOn(ViewOf(l.entries), ViewOf(l'.entries), req) && l.rev == l'.rev && l.seqNo == l'.seqNo
    ensures Decided(term, l, req) == Decided(term, l', req)
  {
    SameDecide(term, ViewOf(l.entries), ViewOf(l'.entries), l.rev + 1, l.seqNo + 1, req);
  }

  ghost predicate Apart(a: seq<Entry>, req: Request) {
    forall key :: Reads(req, key) ==> !Touched(a, key)
  }

  lemma ApartAgrees(h: seq<Entry>, a: seq<Entry>, b: seq<Entry>, req: Request)
    requires ValidLog(h + a) && ValidLog(h + a + b) && Apart(a, req)
    ensures AgreeOn(ViewOf(h + a + b), ViewOf(h + b), req)
  {
    forall key | Reads(req, key) ensures Lookup(ViewOf(h + a + b), key) == Lookup(ViewOf(h + b), key) {
      WithoutPart(h, a, b, key);
    }
  }

  /** l has a between h and b, l' has not; the counters are the same. */
  ghost predicate Beside(h: seq<Entry>, a: seq<Entry>, b: seq<Entry>, l: Log, l': Log) {
    l.entries == h + a + b && l'.entries == h + b && l.rev == l'.rev && l.seqNo == l'.seqNo
  }

  lemma BesideMore(h: seq<Entry>, a: seq<Entry>, b: seq<Entry>, l: Log, l': Log, entry: Option<Entry>) returns (b': seq<Entry>)
    requires Beside(h, a, b, l, l')
    ensures Beside(h, a, b', Append(l, entry), Append(l', entry)) && b <= b'
  {
    b' := if entry.None? then b else b + [entry.value];
    if entry.Some? {
      assert h + a + b + [entry.value] == h + a + b' && h + b + [entry.value] == h + b';
    }
  }

  lemma ExecutedValid(term: nat, l: Log, reqs: seq<Request>)
    requires ValidLog(l.entries) && CurrentRev(l.entries) <= l.rev
    ensures ValidLog(Execute(term, l, reqs).entries) && CurrentRev(Execute(term, l, reqs).entries) <= Execute(term, l, reqs).rev
  {
    if reqs != [] {
      ExecutedValid(term, l, reqs[..|reqs| - 1]);
      AppendedValid(term, Execute(term, l, reqs[..|reqs| - 1]), reqs[|reqs| - 1]);
    }
  }

  lemma AppendedValid(term: nat, l: Log, req: Request)
    requires ValidLog(l.entries) && CurrentRev(l.entries) <= l.rev
    ensures var l' := Append(l, Decided(term, l, req).entry); ValidLog(l'.entries) && CurrentRev(l'.entries) <= l'.rev
  {
    DecidedIs(term, l, req);
    StoreProofs.CountersNonNegative(l.entries);
    DecidedNumbers(term, ViewOf(l.entries), l.rev + 1, l.seqNo + 1, req);
    DecidedEntryValid(term, ViewOf(l.entries), l.rev + 1, l.seqNo + 1, req);
    if Decided(term, l, req).entry.Some? { ValidMore(l.entries, Decided(term, l, req).entry.value); }
  }

  /** One more request, decided alike on both sides. */
  lemma RestStep(term: nat, l: Log, l': Log, reqs: seq<Request>, more: seq<Request>, req: Request,
                 h: seq<Entry>, a: seq<Entry>, b: seq<Entry>) returns (b': seq<Entry>)
    requires more == reqs + [req] && Beside(h, a, b, Execute(term, l, reqs), Execute(term, l', reqs))
    requires Outcomes(term, l, reqs) == Outcomes(term, l', reqs)
    requires Decided(term, Execute(term, l, reqs), req) == Decided(term, Execute(term, l', reqs), req)
    ensures Beside(h, a, b', Execute(term, l, more), Execute(term, l', more))
    ensures Outcomes(term, l, more) == Outcomes(term, l', more)
  {
    ExecuteStep(term, l, reqs, more, req, Execute(term, l, reqs));
    ExecuteStep(term, l', reqs, more, req, Execute(term, l', reqs));
    b' := BesideMore(h, a, b, Execute(term, l, reqs), Execute(term, l', reqs), Decided(term, Execute(term, l, reqs), req).entry);
  }

  lemma BesideAgrees(h: seq<Entry>, a: seq<Entry>, b: seq<Entry>, l: Log, l': Log, req: Request)
    requires Beside(h, a, b, l, l') && ValidLog(h + a) && ValidLog(l.entries) && Apart(a, req)
    ensures AgreeOn(ViewOf(l.entries), ViewOf(l'.entries), req)
  {
    ApartAgrees(h, a, b, req);
  }

  ghost predicate AllApart(a: seq<Entry>, reqs: seq<Request>) {
    forall i :: 0 <= i < |reqs| ==> Apart(a, reqs[i])
  }

  lemma BesideStart(h: seq<Entry>, a: seq<Entry>, l: Log, l': Log)
    requires l.entries == h + a && l' == l.(entries := h)
    ensures Beside(h, a, [], l, l')
  {
    assert h + a + [] == h + a && h + [] == h;
  }

  /** Requests that read nothing a wrote append the same entries and get the same
      replies without a. */
  lemma {:induction false} RestIsSerial(term: nat, h: seq<Entry>, a: seq<Entry>, l: Log, l': Log, reqs: seq<Request>)
    returns (b: seq<Entry>)
    requires l.entries == h + a && l' == l.(entries := h) && ValidLog(h + a) && CurrentRev(h + a) <= l.rev
    requires AllApart(a, reqs)
    ensures Beside(h, a, b, Execute(term, l, reqs), Execute(term, l', reqs))
    ensures Outcomes(term, l, reqs) == Outcomes(term, l', reqs)
  {
    if reqs == [] {
      b := [];
      BesideStart(h, a, l, l');
    } else {
      var init, req := reqs[..|reqs| - 1], reqs[|reqs| - 1];
      var b0 := RestIsSerial(term, h, a, l, l', init);
      ExecutedValid(term, l, init);
      assert Apart(a, req);
      BesideAgrees(h, a, b0, Execute(term, l, init), Execute(term, l', init), req);
      AgreeDecided(term, Execute(term, l, init), Execute(term, l', init), req);
      SplitEnd([], reqs);
      b := RestStep(term, l, l', init, reqs, req, h, a, b0);
    }
  }

  // ----------------------------------------------------------- exactly when, for puts

  ghost predicate AllPuts(reqs: seq<Request>) {
    forall i :: 0 <= i < |reqs| ==> reqs[i].Put?
  }

  ghost predicate Names(reqs: seq<Request>, key: Key)
    requires AllPuts(reqs)
  {
    exists i :: 0 <= i < |reqs| && reqs[i].key == key
  }

  lemma NamesMore(init: seq<Request>, req: Request, reqs: seq<Request>, key: Key)
    requires reqs == init + [req] && AllPuts(reqs)
    ensures req.Put? && AllPuts(init) && (Names(reqs, key) <==> Names(init, key) || req.key == key)
  {
    assert forall i :: 0 <= i < |init| ==> reqs[i] == init[i];
    assert reqs[|init|] == req;
    if Names(init, key) {
      var i :| 0 <= i < |init| && init[i].key == key;
      assert reqs[i].key == key;
    }
  }

  function PutEntry(term: nat, l: Log, req: Request): (e: Entry)
    requires req.Put?
  {
    EntryOf(term, l.rev + 1, l.seqNo + 1, PutOp(Lookup(ViewOf(l.entries), req.key), l.rev + 1, req.key, req.value, req.lease))
  }

  lemma PutAppends(term: nat, l: Log, req: Request)
    requires req.Put?
    ensures Append(l, Decided(term, l, req).entry) == Log(l.entries + [PutEntry(term, l, req)], l.rev + 1, l.seqNo + 1)
    ensures SubOps(PutEntry(term, l, req)) ==
            [PutOp(Lookup(ViewOf(l.entries), req.key), l.rev + 1, req.key, req.value, req.lease)]
  {
  }

  lemma PutWrites(term: nat, l: Log, req: Request, key: Key)
    requires req.Put?
    ensures Writes(PutEntry(term, l, req), key) <==> key == req.key
  {
    PutAppends(term, l, req);
    assert SubOps(PutEntry(term, l, req))[0].key == req.key;
  }

  /** After puts of a key it is live, at a revision they gave it. */
  lemma {:induction false} PutsLookup(term: nat, l: Log, reqs: seq<Request>, key: Key)
    requires AllPuts(reqs) && l.rev >= 0 && ValidLog(l.entries) && CurrentRev(l.entries) <= l.rev
    ensures var r := Execute(term, l, reqs);
            && r.rev == l.rev + |reqs|
            && (if Names(reqs, key)
                then Lookup(ViewOf(r.entries), key).Some? && Lookup(ViewOf(r.entries), key).value.revision > l.rev
                else Lookup(ViewOf(r.entries), key) == Lookup(ViewOf(l.entries), key))
  {
    if reqs != [] {
      var init, req := reqs[..|reqs| - 1], reqs[|reqs| - 1];
      SplitEnd([], reqs);
      NamesMore(init, req, reqs, key);
      PutsLookup(term, l, init, key);
      var m := Execute(term, l, init);
      ExecuteStep(term, l, init, reqs, req, m);
      PutAppends(term, m, req);
      ExecutedValid(term, l, init);
      PutLookup(term, m, req, key);
    }
  }

  lemma PutLookup(term: nat, l: Log, req: Request, key: Key)
    requires req.Put? && l.rev >= 0 && ValidLog(l.entries)
    ensures var es := l.entries + [PutEntry(term, l, req)];
            Lookup(ViewOf(es), key) ==
              if key == req.key then Lookup(ViewOf(es), key) else Lookup(ViewOf(l.entries), key)
    ensures var es := l.entries + [PutEntry(term, l, req)];
            key == req.key ==> Lookup(ViewOf(es), key).Some? && Lookup(ViewOf(es), key).value.revision == l.rev + 1
  {
    var e := PutEntry(term, l, req);
    PutAppends(term, l, req);
    StoreProofs.Extend(l.entries, e);
    var o := SubOps(e)[0];
    StoreProofs.ApplySingle(ViewOf(l.entries), e.revision, o);
  }

  lemma {:induction false} RevisionBound(es: seq<Entry>, key: Key)
    requires ValidLog(es) && key in ViewOf(es)
    ensures ViewOf(es)[key].revision <= CurrentRev(es)
  {
    if es != [] {
      var init, e := es[..|es| - 1], es[|es| - 1];
      ApplySubsLookup(ViewOf(init), e.revision, SubOps(e), key);
      if i :| 0 <= i < |SubOps(e)| && SubOps(e)[i].key == key {
        assert IsData(e);
      } else {
        RevisionBound(init, key);
      }
    }
  }

  lemma TouchedMore(a: seq<Entry>, e: Entry, key: Key)
    ensures Touched(a + [e], key) <==> Touched(a, key) || Writes(e, key)
  {
    assert forall i :: 0 <= i < |a| ==> (a + [e])[i] == a[i];
    assert (a + [e])[|a|] == e;
    if Touched(a, key) {
      var i :| 0 <= i < |a| && Writes(a[i], key);
      assert Writes((a + [e])[i], key);
    }
  }

  lemma {:induction false} PutsTouch(term: nat, l: Log, reqs: seq<Request>) returns (a: seq<Entry>)
    requires AllPuts(reqs)
    ensures Execute(term, l, reqs).entries == l.entries + a && |a| == |reqs|
    ensures forall key :: Touched(a, key) <==> Names(reqs, key)
  {
    if reqs == [] {
      a := [];
      assert l.entries + [] == l.entries;
    } else {
      var init, req := reqs[..|reqs| - 1], reqs[|reqs| - 1];
      SplitEnd([], reqs);
      var a0 := PutsTouch(term, l, init);
      var m := Execute(term, l, init);
      ExecuteStep(term, l, init, reqs, req, m);
      PutAppends(term, m, req);
      var e := PutEntry(term, m, req);
      a := a0 + [e];
      Associative(l.entries, a0, [e]);
      forall key ensures Touched(a, key) <==> Names(reqs, key) {
        NamesMore(init, req, reqs, key);
        TouchedMore(a0, e, key);
        PutWrites(term, m, req, key);
      }
    }
  }

  ghost predicate Disjoint(first: seq<Request>, rest: seq<Request>)
    requires AllPuts(first) && AllPuts(rest)
  {
    forall i :: 0 <= i < |rest| ==> !Names(first, rest[i].key)
  }

  lemma DisjointApart(a: seq<Entry>, first: seq<Request>, rest: seq<Request>)
    requires AllPuts(first) && AllPuts(rest) && Disjoint(first, rest) && forall key :: Touched(a, key) <==> Names(first, key)
    ensures AllApart(a, rest)
  {
  }

  lemma {:induction false} FirstClash(first: seq<Request>, rest: seq<Request>) returns (j: nat)
    requires AllPuts(first) && AllPuts(rest) && !Disjoint(first, rest)
    ensures j < |rest| && Names(first, rest[j].key) && Disjoint(first, rest[..j])
  {
    var init := rest[..|rest| - 1];
    if Disjoint(first, init) {
      j := |rest| - 1;
    } else {
      j := FirstClash(first, init);
      assert init[..j] == rest[..j];
    }
  }

  /** A put of a key that was put before gets another entry without that. */
  lemma ClashDiffers(term: nat, l: Log, first: seq<Request>, before: seq<Request>, req: Request)
    requires AllPuts(first) && AllPuts(before) && req.Put? && l.rev >= 0 && ValidLog(l.entries) && CurrentRev(l.entries) <= l.rev
    requires Names(first, req.key) && !Names(before, req.key)
    ensures var l1 := Execute(term, l, first);
            PutEntry(term, Execute(term, l1, before), req) != PutEntry(term, Execute(term, l1.(entries := l.entries), before), req)
  {
    var l1 := Execute(term, l, first);
    var l1' := l1.(entries := l.entries);
    ExecutedValid(term, l, first);
    PutsLookup(term, l, first, req.key);
    PutsLookup(term, l1, before, req.key);
    PutsLookup(term, l1', before, req.key);
    if req.key in ViewOf(l.entries) { RevisionBound(l.entries, req.key); }
    PutEntryPrev(term, Execute(term, l1, before), req);
    PutEntryPrev(term, Execute(term, l1', before), req);
  }

  lemma PutEntryPrev(term: nat, l: Log, req: Request)
    requires req.Put?
    ensures var x := Lookup(ViewOf(l.entries), req.key);
            PutEntry(term, l, req).op == (if x.None? then OpCreate else OpUpdate) &&
            PutEntry(term, l, req).prevRev == if x.None? then 0 else x.value.revision
  {
  }

  lemma ExecutePrefix(term: nat, l: Log, xs: seq<Request>, ys: seq<Request>)
    requires l.rev >= 0
    ensures Execute(term, l, xs).rev >= 0 && Execute(term, l, xs).entries <= Execute(term, l, xs + ys).entries
  {
    SequencesConsecutive(term, l, xs);
    SequencesConsecutive(term, Execute(term, l, xs), ys);
    ExecuteSplit(term, l, xs, ys);
  }

  lemma PutExecutes(term: nat, l: Log, before: seq<Request>, req: Request, m: Log)
    requires req.Put? && m == Execute(term, l, before)
    ensures Execute(term, l, before + [req]).entries == m.entries + [PutEntry(term, m, req)]
  {
    ExecuteStep(term, l, before, before + [req], req, m);
    PutAppends(term, m, req);
  }

  lemma ThreeParts(reqs: seq<Request>, j: nat)
    requires j < |reqs|
    ensures reqs[..j] + [reqs[j]] + reqs[j + 1..] == reqs
  {
  }

  lemma PutStays(term: nat, l: Log, before: seq<Request>, req: Request, after: seq<Request>, m: Log)
    requires l.rev >= 0 && req.Put? && m == Execute(term, l, before)
    ensures m.entries + [PutEntry(term, m, req)] <= Execute(term, l, before + [req] + after).entries
  {
    PutExecutes(term, l, before, req, m);
    ExecutePrefix(term, l, before + [req], after);
  }

  lemma ExecuteGrows(term: nat, l: Log, reqs: seq<Request>, j: nat, m: Log)
    requires l.rev >= 0 && j < |reqs| && reqs[j].Put? && m == Execute(term, l, reqs[..j])
    ensures m.entries + [PutEntry(term, m, reqs[j])] <= Execute(term, l, reqs).entries
  {
    PutStays(term, l, reqs[..j], reqs[j], reqs[j + 1..], m);
    ThreeParts(reqs, j);
  }

  lemma SameRest(h: seq<Entry>, a: seq<Entry>, b: seq<Entry>)
    requires h + a == h + b
    ensures a == b
  {
    assert (h + a)[|h|..] == a && (h + b)[|h|..] == b;
  }

  lemma DifferingEntries(h: seq<Entry>, a: seq<Entry>, b0: seq<Entry>, e: Entry, e': Entry, b: seq<Entry>)
    requires h + a + b0 + [e] <= h + a + b && h + b0 + [e'] <= h + b
    ensures e == e'
  {
    assert (h + a + b0 + [e])[|h| + |a| + |b0|] == e && (h + a + b)[|h| + |a| + |b0|] == b[|b0|];
    assert (h + b0 + [e'])[|h| + |b0|] == e' && (h + b)[|h| + |b0|] == b[|b0|];
  }

  lemma ClashSplits(first: seq<Request>, rest: seq<Request>, j: nat)
    requires AllPuts(first) && AllPuts(rest) && j < |rest| && Names(first, rest[j].key) && Disjoint(first, rest[..j])
    ensures !Names(rest[..j], rest[j].key)
  {
    assert forall i :: 0 <= i < j ==> rest[..j][i].key != rest[j].key;
  }

  /** Up to the clash both sides agree, and there they part. */
  lemma ClashAt(term: nat, l: Log, first: seq<Request>, rest: seq<Request>, a: seq<Entry>, j: nat, l1: Log, l1': Log)
    returns (b0: seq<Entry>, e: Entry, e': Entry)
    requires AllPuts(first) && AllPuts(rest) && l.rev >= 0 && ValidLog(l.entries) && CurrentRev(l.entries) <= l.rev
    requires l1 == Execute(term, l, first) && l1' == l1.(entries := l.entries) && l1.entries == l.entries + a && l1.rev >= 0
    requires j < |rest| && Names(first, rest[j].key) && Disjoint(first, rest[..j])
    ensures e != e' && l.entries + a + b0 + [e] <= Execute(term, l1, rest).entries
    ensures l.entries + b0 + [e'] <= Execute(term, l1', rest).entries
  {
    var a1 := PutsTouch(term, l, first);
    SameRest(l.entries, a, a1);
    ExecutedValid(term, l, first);
    DisjointApart(a, first, rest[..j]);
    b0 := RestIsSerial(term, l.entries, a, l1, l1', rest[..j]);
    ClashSplits(first, rest, j);
    ClashDiffers(term, l, first, rest[..j], rest[j]);
    var m, m' := Execute(term, l1, rest[..j]), Execute(term, l1', rest[..j]);
    e, e' := PutEntry(term, m, rest[j]), PutEntry(term, m', rest[j]);
    ExecuteGrows(term, l1, rest, j, m);
    ExecuteGrows(term, l1', rest, j, m');
  }

  lemma ClashNoticed(term: nat, l: Log, first: seq<Request>, rest: seq<Request>, a: seq<Entry>, b: seq<Entry>)
    requires AllPuts(first) && AllPuts(rest) && l.rev >= 0 && ValidLog(l.entries) && CurrentRev(l.entries) <= l.rev
    requires !Disjoint(first, rest) && Execute(term, l, first).entries == l.entries + a
    ensures var l1 := Execute(term, l, first);
            !Beside(l.entries, a, b, Execute(term, l1, rest), Execute(term, l1.(entries := l.entries), rest))
  {
    var l1 := Execute(term, l, first);
    ExecutePrefix(term, l, first, []);
    var j := FirstClash(first, rest);
    var b0, e, e' := ClashAt(term, l, first, rest, a, j, l1, l1.(entries := l.entries));
    if Beside(l.entries, a, b, Execute(term, l1, rest), Execute(term, l1.(entries := l.entries), rest)) {
      DifferingEntries(l.entries, a, b0, e, e', b);
    }
  }

  lemma DisjointUnnoticed(term: nat, l: Log, first: seq<Request>, rest: seq<Request>, a: seq<Entry>, l1: Log, l1': Log)
    returns (b: seq<Entry>)
    requires AllPuts(first) && AllPuts(rest) && ValidLog(l.entries) && CurrentRev(l.entries) <= l.rev
    requires l1 == Execute(term, l, first) && l1' == l1.(entries := l.entries) && l1.entries == l.entries + a
    requires Disjoint(first, rest)
    ensures Beside(l.entries, a, b, Execute(term, l1, rest), Execute(term, l1', rest))
  {
    var a1 := PutsTouch(term, l, first);
    SameRest(l.entries, a, a1);
    ExecutedValid(term, l, first);
    DisjointApart(a, first, rest);
    b := RestIsSerial(term, l.entries, a, l1, l1', rest);
  }

  /** Without a, reqs append what they append after it. */
  ghost predicate Unnoticed(term: nat, h: seq<Entry>, a: seq<Entry>, l: Log, reqs: seq<Request>) {
    exists b :: Beside(h, a, b, Execute(term, l, reqs), Execute(term, l.(entries := h), reqs))
  }

  /** Puts decided on top of others leave, without those, the entries they would have
      been given on their own, if and only if no key is put by both. */
  lemma PutsUnnoticedIff(term: nat, l: Log, first: seq<Request>, rest: seq<Request>, a: seq<Entry>, l1: Log)
    requires AllPuts(first) && AllPuts(rest) && l.rev >= 0 && ValidLog(l.entries) && CurrentRev(l.entries) <= l.rev
    requires l1 == Execute(term, l, first) && l1.entries == l.entries + a
    ensures Unnoticed(term, l.entries, a, l1, rest) <==> Disjoint(first, rest)
  {
    if Disjoint(first, rest) {
      var b := DisjointUnnoticed(term, l, first, rest, a, l1, l1.(entries := l.entries));
    } else {
      forall b ensures !Beside(l.entries, a, b, Execute(term, l1, rest), Execute(term, l1.(entries := l.entries), rest)) {
        ClashNoticed(term, l, first, rest, a, b);
      }
    }
  }
}
