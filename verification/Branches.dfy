/** A branch: a store whose checkpoints refer to SSTs of the store it was forked
    from, while both stores write and collect. */
module Branches {
  import Lex
  import opened Entries
  import opened Checkpoint

  /** A collection in the ancestor store leaves a branch checkpoint restorable if and
      only if none of the SSTs it inherited was judged an orphan there. */
  lemma CollectLeavesBranchIff(parent: Bucket, child: Bucket, keep: int, k: Lex.Key)
    requires k in child.indexes && Restorable(child, Some(parent.ssts), k)
    ensures Restorable(child, Some(Collect(parent, keep).ssts), k) <==>
            forall s :: s in child.indexes[k].ancestors ==> !Orphan(parent, keep, s)
  {
    var kept := Collect(parent, keep).ssts;
    if Restorable(child, Some(kept), k) {
      forall s | s in child.indexes[k].ancestors ensures !Orphan(parent, keep, s) {
        assert s in kept;
      }
    }
  }

  // ------------------------------------------------------------ runs of both stores

  datatype Pair = Pair(parent: Bucket, child: Bucket)

  datatype Move = Parent(step: Step) | Child(step: Step)

  /** What the ancestor store holds is what the branch can inherit at the time. */
  function Moved(p: Pair, m: Move): (p': Pair) {
    match m
    case Parent(step) => p.(parent := Next(p.parent, None, step))
    case Child(step) => p.(child := Next(p.child, Some(p.parent.ssts), step))
  }

  function AfterMoves(p: Pair, moves: seq<Move>): (p': Pair) {
    if moves == [] then p else Moved(AfterMoves(p, moves[..|moves| - 1]), moves[|moves| - 1])
  }

  /** Everything the branch inherited belongs to the checkpoint it is pinned to. */
  ghost predicate Inherits(p: Pair, pinned: Lex.Key) {
    pinned in p.parent.indexes &&
    forall k :: k in p.child.indexes ==> p.child.indexes[k].ancestors <= p.parent.indexes[pinned].ssts
  }

  /** Both stores write in order, and the parent leaves the pin of the branch alone. */
  ghost predicate Permitted(p: Pair, m: Move, id: nat) {
    match m
    case Parent(step) => InOrder(p.parent, step) && LeavesPin(step, id)
    case Child(step) => InOrder(p.child, step)
  }

  ghost predicate BranchRun(p: Pair, moves: seq<Move>, id: nat, pinned: Lex.Key) {
    moves == [] ||
    (var init, m := moves[..|moves| - 1], moves[|moves| - 1];
     BranchRun(p, init, id, pinned) && Permitted(AfterMoves(p, init), m, id) && Inherits(AfterMoves(p, moves), pinned))
  }

  ghost predicate Sound(p: Pair, id: nat, pinned: Lex.Key) {
    PinHolds(p.parent, None, id, pinned) && AllRestorable(p.child, Some(p.parent.ssts)) && ManifestIsNewest(p.child)
  }

  lemma InheritedRestorable(child: Bucket, parent: Bucket, parent': Bucket, pinned: Lex.Key)
    requires AllRestorable(child, Some(parent.ssts)) && Inherits(Pair(parent', child), pinned)
    requires AllRestorable(parent', None)
    ensures AllRestorable(child, Some(parent'.ssts))
  {
    assert Restorable(parent', None, pinned);
    forall k | k in child.indexes ensures Restorable(child, Some(parent'.ssts), k) {
      assert Restorable(child, Some(parent.ssts), k);
    }
  }

  lemma MoveKeeps(p: Pair, m: Move, id: nat, pinned: Lex.Key)
    requires Sound(p, id, pinned) && Permitted(p, m, id) && Inherits(Moved(p, m), pinned)
    ensures Sound(Moved(p, m), id, pinned)
  {
    match m
    case Parent(step) =>
      PinKept(p.parent, None, step, id, pinned);
      InheritedRestorable(p.child, p.parent, Next(p.parent, None, step), pinned);
    case Child(step) =>
      StepKeeps(p.child, Some(p.parent.ssts), step);
  }

  lemma {:induction false} RunKeeps(p: Pair, moves: seq<Move>, id: nat, pinned: Lex.Key)
    requires Sound(p, id, pinned) && BranchRun(p, moves, id, pinned)
    ensures Sound(AfterMoves(p, moves), id, pinned)
  {
    if moves != [] {
      RunKeeps(p, moves[..|moves| - 1], id, pinned);
      MoveKeeps(AfterMoves(p, moves[..|moves| - 1]), moves[|moves| - 1], id, pinned);
    }
  }

  /** From the fork on, while the pin stays and the branch inherits from the pinned
      checkpoint only, every checkpoint of the branch can be restored, whatever both
      stores write and collect. */
  lemma BranchStaysRestorable(before: seq<Step>, id: nat, pinned: Lex.Key, moves: seq<Move>)
    requires OrderedRun(NO_OBJECTS, None, before) && pinned in After(NO_OBJECTS, None, before).indexes
    requires var parent := Next(After(NO_OBJECTS, None, before), None, RegisterBranch(id, pinned));
             BranchRun(Pair(parent, NO_OBJECTS), moves, id, pinned)
    ensures var parent := Next(After(NO_OBJECTS, None, before), None, RegisterBranch(id, pinned));
            var p := AfterMoves(Pair(parent, NO_OBJECTS), moves);
            AllRestorable(p.child, Some(p.parent.ssts))
  {
    CheckpointsStayRestorable(None, before);
    StepKeeps(After(NO_OBJECTS, None, before), None, RegisterBranch(id, pinned));
    RunKeeps(Pair(Next(After(NO_OBJECTS, None, before), None, RegisterBranch(id, pinned)), NO_OBJECTS), moves, id, pinned);
  }
}
