/** WAL entries and key-value states shared by the log, the store and the leader. */
module Entries {

  type Byte = b: int | 0 <= b < 256
  type Key = seq<Byte>
  type Value = seq<Byte>

  datatype Option<+T> = None | Some(value: T)

  datatype Op = OpCreate | OpUpdate | OpDelete | OpCompact | OpTxn

  /** One operation inside an OpTxn entry; op is OpCreate, OpUpdate or OpDelete. */
  datatype SubOp = SubOp(op: Op, key: Key, value: Value, lease: int,
                         createRev: int, prevRev: int, version: int)

  /** One record of the write-ahead log.  For OpTxn, ops holds the decoded payload. */
  datatype Entry = Entry(id: int, revision: int, term: nat, op: Op, key: Key, value: Value,
                         lease: int, createRev: int, prevRev: int, version: int,
                         ops: seq<SubOp>)
  {
    /** The identity used for WAL ordering and ACKs; old entries carry id 0. */
    function Sequence(): int {
      if id != 0 then id else revision
    }
  }

  /** The result of a point lookup. */
  datatype KeyValue = KeyValue(key: Key, value: Value, revision: int, createRev: int,
                               prevRev: int, version: int, lease: int)

  /** Go ranges over a map in an arbitrary order: any remaining member may come next. */
  method Pick<T>(s: set<T>) returns (x: T)
    requires s != {}
    ensures x in s
  {
    x :| x in s;
  }

  /** es carries the sequence numbers first, first + 1, ... */
  predicate Consecutive(es: seq<Entry>, first: int) {
    forall i :: 0 <= i < |es| ==> es[i].Sequence() == first + i
  }

  lemma SplitEnd<T>(a: seq<T>, b: seq<T>)
    requires b != []
    ensures b == b[..|b| - 1] + [b[|b| - 1]] && a + b == (a + b[..|b| - 1]) + [b[|b| - 1]]
  {
  }

  lemma Associative<T>(a: seq<T>, b: seq<T>, c: seq<T>)
    ensures (a + b) + c == a + (b + c)
  {
  }
}
