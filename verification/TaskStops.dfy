/**
 Stopping every task of an item: the caller takes a snapshot of the item's set and
 stops its members one by one, while other processes clean up, stop and deliver in
 any order.
 */
module TaskStops {
  import opened Prelude
  import opened Tasks

  /** A stop of `item` by thread `me`: the k-th task of the snapshot is next, or under way. */
  datatype StopAll = StopAll(r: Registry, item: Id, me: nat, snapshot: seq<Id>, k: nat, underWay: bool)

  datatype Move =
    | Begin            // look up the item of the next task
    | EndOne           // its stop has run to the end
    | Other(step: Step)

  /** No one creates a task for the item meanwhile, or uses the caller's thread. */
  predicate CanMove(s: StopAll, move: Move)
  {
    match move
    case Begin => !s.underWay && s.k < |s.snapshot| && Enabled(s.r, Stop(s.me, s.snapshot[s.k]))
    case EndOne => s.underWay && s.me !in s.r.threads
    case Other(step) =>
      && Enabled(s.r, step)
      && (step.Finish? || step.Stop? ==> step.thread != s.me)
      && (step.Create? ==> Truthy(step.item) != Some(s.item))
  }

  function Moved(s: StopAll, move: Move): StopAll
    requires CanMove(s, move)
  {
    match move
    case Begin => s.(r := Take(s.r, Stop(s.me, s.snapshot[s.k])), underWay := true)
    case EndOne => s.(k := s.k + 1, underWay := false)
    case Other(step) => s.(r := Take(s.r, step))
  }

  predicate IsStopRun(s: StopAll, moves: seq<Move>)
    decreases |moves|
  {
    moves != [] ==> CanMove(s, moves[0]) && IsStopRun(Moved(s, moves[0]), moves[1..])
  }

  function AfterMoves(s: StopAll, moves: seq<Move>): StopAll
    requires IsStopRun(s, moves)
    decreases |moves|
  {
    if moves == [] then s else AfterMoves(Moved(s, moves[0]), moves[1..])
  }

  // ---------------------------------------------------------- invariant

  /** A stop command for t was published: it is pending, or t was cancelled, or t left its owner's table. */
  ghost predicate Announced(r: Registry, t: Id)
  {
    t in r.saved && (t in r.commands || t in r.cancelled || t !in r.live)
  }

  ghost predicate Stopped(r: Registry, t: Id)
  {
    t !in r.hash && Announced(r, t)
  }

  lemma StopIsForever(r: Registry, t: Id, step: Step)
    requires WellBound(r) && Enabled(r, step)
    ensures Announced(r, t) ==> Announced(Take(r, step), t)
    ensures Stopped(r, t) ==> Stopped(Take(r, step), t)
  {
  }

  /** How far the stop of the current task is. */
  ghost predicate UnderWay(s: StopAll)
  {
    && s.k < |s.snapshot|
    && var t := s.snapshot[s.k];
       if s.me !in s.r.threads then Stopped(s.r, t)
       else match s.r.threads[s.me]
         case Publish(t', _) => t' == t
         case Remove(t', _) => t' == t && Announced(s.r, t)
         case CountSet(_) => Stopped(s.r, t)
         case DeleteSet(_) => Stopped(s.r, t)
  }

  ghost predicate Progress(s: StopAll)
  {
    && s.k <= |s.snapshot|
    && (forall j | 0 <= j < s.k :: Stopped(s.r, s.snapshot[j]))
    && if s.underWay then UnderWay(s) else s.me !in s.r.threads
  }

  /** All tasks of the item were saved before the snapshot, so its set can only shrink. */
  ghost predicate Closed(s: StopAll)
  {
    && (forall t | t in s.r.bound && s.r.bound[t] == Some(s.item) :: t in s.r.saved)
    && (forall t | t in s.snapshot :: t in s.r.saved)
    && (forall t | t in SetOf(s.r, s.item) :: t in s.snapshot)
  }

  ghost predicate Inv(s: StopAll)
  {
    WellBound(s.r) && MembersAreHashed(s.r) && Closed(s) && Progress(s)
  }

  lemma StepKeepsItemSaved(r: Registry, item: Id, step: Step)
    requires Enabled(r, step) && (step.Create? ==> Truthy(step.item) != Some(item))
    requires forall t | t in r.bound && r.bound[t] == Some(item) :: t in r.saved
    ensures var r' := Take(r, step);
            (forall t | t in r'.bound && r'.bound[t] == Some(item) :: t in r'.saved) && r.saved <= r'.saved
  {
  }

  /** No step adds to the set of an item whose tasks are all saved. */
  lemma StepShrinksSet(r: Registry, item: Id, step: Step)
    requires Enabled(r, step)
    requires forall t | t in r.bound && r.bound[t] == Some(item) :: t in r.saved
    ensures SetOf(Take(r, step), item) <= SetOf(r, item)
  {
  }

  lemma MoveKeepsClosed(s: StopAll, move: Move)
    requires Closed(s) && CanMove(s, move)
    ensures Closed(Moved(s, move))
  {
    if !move.EndOne? {
      var step := if move.Begin? then Stop(s.me, s.snapshot[s.k]) else move.step;
      StepKeepsItemSaved(s.r, s.item, step);
      StepShrinksSet(s.r, s.item, step);
    }
  }

  lemma MoveKeepsOthersStopped(s: StopAll, move: Move, j: nat)
    requires WellBound(s.r) && CanMove(s, move) && j < |s.snapshot| && Stopped(s.r, s.snapshot[j])
    ensures Stopped(Moved(s, move).r, s.snapshot[j])
  {
    match move
    case Begin => StopIsForever(s.r, s.snapshot[j], Stop(s.me, s.snapshot[s.k]));
    case EndOne =>
    case Other(step) => StopIsForever(s.r, s.snapshot[j], step);
  }

  /** The caller's own thread goes through publish, remove, count and delete. */
  lemma OwnAdvance(s: StopAll)
    requires Inv(s) && s.underWay && s.me in s.r.threads
    ensures UnderWay(s.(r := Take(s.r, Advance(s.me))))
  {
    StopIsForever(s.r, s.snapshot[s.k], Advance(s.me));
  }

  lemma OthersAdvance(s: StopAll, step: Step)
    requires Inv(s) && s.underWay && CanMove(s, Other(step)) && step != Advance(s.me)
    ensures UnderWay(s.(r := Take(s.r, step)))
  {
    var r' := Take(s.r, step);
    StopIsForever(s.r, s.snapshot[s.k], step);
    assert s.me in s.r.threads <==> s.me in r'.threads;
    assert s.me in s.r.threads ==> r'.threads[s.me] == s.r.threads[s.me];
  }

  lemma MoveKeepsProgress(s: StopAll, move: Move)
    requires Inv(s) && CanMove(s, move)
    ensures Progress(Moved(s, move))
  {
    forall j | 0 <= j < s.k ensures Stopped(Moved(s, move).r, s.snapshot[j]) {
      MoveKeepsOthersStopped(s, move, j);
    }
    match move
    case Begin =>
    case EndOne =>
    case Other(step) =>
      if s.underWay {
        if step == Advance(s.me) {
          OwnAdvance(s);
        } else {
          OthersAdvance(s, step);
        }
      }
  }

  lemma MoveKeepsInv(s: StopAll, move: Move)
    requires Inv(s) && CanMove(s, move)
    ensures Inv(Moved(s, move))
  {
    MoveKeepsClosed(s, move);
    MoveKeepsProgress(s, move);
    match move
    case Begin =>
      StepKeepsBound(s.r, Stop(s.me, s.snapshot[s.k]));
      StepKeepsMembersHashed(s.r, Stop(s.me, s.snapshot[s.k]));
    case EndOne =>
    case Other(step) =>
      StepKeepsBound(s.r, step);
      StepKeepsMembersHashed(s.r, step);
  }

  lemma {:induction false} RunKeepsInv(s: StopAll, moves: seq<Move>)
    requires Inv(s) && IsStopRun(s, moves)
    ensures Inv(AfterMoves(s, moves))
    ensures AfterMoves(s, moves).snapshot == s.snapshot && AfterMoves(s, moves).item == s.item
    decreases |moves|
  {
    if moves != [] {
      MoveKeepsInv(s, moves[0]);
      RunKeepsInv(Moved(s, moves[0]), moves[1..]);
    }
  }

  /** The stop starts from a snapshot of the item's set, with no task of the item still to be saved. */
  ghost predicate Starts(s: StopAll)
  {
    && WellBound(s.r) && MembersAreHashed(s.r)
    && Elems(s.snapshot) == SetOf(s.r, s.item)
    && (forall t | t in s.r.bound && s.r.bound[t] == Some(s.item) :: t in s.r.saved)
    && s.k == 0 && !s.underWay && s.me !in s.r.threads
  }

  /**
   When the loop has gone through the snapshot, whatever the others did meanwhile,
   the item has no task left in its set, no snapshotted task is in the hash, and a
   snapshotted task whose stop command is no longer pending is cancelled or has
   left its owner's table.
   */
  lemma StopItemTasksStopsAll(s: StopAll, moves: seq<Move>)
    requires Starts(s) && IsStopRun(s, moves)
    ensures var e := AfterMoves(s, moves);
            e.snapshot == s.snapshot && e.item == s.item
    ensures var e := AfterMoves(s, moves);
            e.k == |e.snapshot| ==>
              && !HasActiveTasks(e.r, e.item)
              && forall t | t in e.snapshot :: && t !in e.r.hash
                                              && (t in e.r.live && t !in e.r.commands ==> t in e.r.cancelled)
  {
    forall t | t in s.snapshot ensures t in s.r.saved {
      assert t in Elems(s.snapshot);
    }
    forall t | t in SetOf(s.r, s.item) ensures t in s.snapshot {
      assert t in Elems(s.snapshot);
    }
    RunKeepsInv(s, moves);
    var e := AfterMoves(s, moves);
    if e.k == |e.snapshot| {
      forall t | t in e.snapshot ensures Stopped(e.r, t) {
        var j :| 0 <= j < |e.snapshot| && e.snapshot[j] == t;
        assert Stopped(e.r, e.snapshot[j]);
      }
      assert SetOf(e.r, e.item) == {};
    }
  }

  /** The loop is never stuck: until it is through it can begin the next stop, advance it, or end it. */
  lemma StopperCanMove(s: StopAll)
    requires Inv(s) && s.k < |s.snapshot|
    ensures if s.underWay then CanMove(s, EndOne) || CanMove(s, Other(Advance(s.me))) else CanMove(s, Begin)
  {
  }

  predicate IsOwn(s: StopAll, move: Move)
  {
    move.Begin? || move.EndOne? || move.step == Advance(s.me)
  }

  /** How many moves of its own the caller has left at most. */
  function MovesLeft(s: StopAll): int
  {
    6 * (|s.snapshot| - s.k)
    - if !s.underWay then 0
      else if s.me !in s.r.threads then 5
      else match s.r.threads[s.me]
        case Publish(_, _) => 1
        case Remove(_, _) => 2
        case CountSet(_) => 3
        case DeleteSet(_) => 4
  }

  /** Every move of the caller brings it closer to the end and no other move sets it back: the loop ends. */
  lemma StopperAdvances(s: StopAll, move: Move)
    requires Inv(s) && CanMove(s, move)
    ensures MovesLeft(s) >= 0
    ensures if IsOwn(s, move) then MovesLeft(Moved(s, move)) < MovesLeft(s)
            else MovesLeft(Moved(s, move)) == MovesLeft(s)
  {
    var s' := Moved(s, move);
    if move.Other? && move.step != Advance(s.me) {
      assert s.me in s.r.threads <==> s.me in s'.r.threads;
      assert s.me in s.r.threads ==> s'.r.threads[s.me] == s.r.threads[s.me];
    }
  }

  // ------------------------------------------------- no other task is cancelled

  /** No command to stop the task is pending or about to be published. */
  ghost predicate Unthreatened(r: Registry, t: Id)
  {
    t !in r.commands && forall th | th in r.threads && r.threads[th].Publish? :: r.threads[th].task != t
  }

  lemma StepKeepsUncancelled(r: Registry, step: Step, t: Id)
    requires Enabled(r, step) && Unthreatened(r, t) && !(step.Stop? && step.task == t)
    ensures Unthreatened(Take(r, step), t)
    ensures t in Take(r, step).cancelled <==> t in r.cancelled
  {
  }

  /**
   The stop of an item cancels nothing else: a task that is not in its snapshot, with no command
   pending and no other stop begun, is cancelled at the end exactly when it was before.
   */
  lemma {:induction false} NoOtherIsCancelled(s: StopAll, moves: seq<Move>, t: Id)
    requires IsStopRun(s, moves)
    requires t !in s.snapshot && Unthreatened(s.r, t)
    requires forall m | m in moves :: !(m.Other? && m.step.Stop? && m.step.task == t)
    ensures t in AfterMoves(s, moves).r.cancelled <==> t in s.r.cancelled
    decreases |moves|
  {
    if moves != [] {
      var move := moves[0];
      assert move in moves;
      if move.Begin? {
        StepKeepsUncancelled(s.r, Stop(s.me, s.snapshot[s.k]), t);
      } else if move.Other? {
        StepKeepsUncancelled(s.r, move.step, t);
      }
      NoOtherIsCancelled(Moved(s, move), moves[1..], t);
    }
  }
}
