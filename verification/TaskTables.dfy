/**
 The task tables of one process: the running tasks and, for each item, the list of
 its tasks.  Without Redis a stop takes a task out of the first table at once, and
 its cleanup takes it out of the second some time later; the stop loop iterates over
 the very list that cleanups shorten.
 */
module TaskTables {
  import opened Prelude

  /**
   `bound` remembers the item of every task created, `ended` the tasks that run no more, and
   `cleaned` those of them whose cleanup has run.
   */
  datatype Tables = Tables(tasks: set<Id>, itemTasks: map<Option<Id>, seq<Id>>,
                           bound: map<Id, Option<Id>>, ended: set<Id>, cleaned: set<Id>)

  const EMPTY := Tables({}, map[], map[], {}, {})

  function ListOf(s: Tables, item: Option<Id>): seq<Id>
  {
    if item in s.itemTasks then s.itemTasks[item] else []
  }

  predicate HasActiveTasks(s: Tables, item: Id)
  {
    ListOf(s, Some(item)) != []
  }

  function Created(s: Tables, t: Id, item: Option<Id>): Tables
  {
    Tables(s.tasks + {t}, s.itemTasks[item := ListOf(s, item) + [t]], s.bound[t := item], s.ended, s.cleaned)
  }

  /** A stop pops the task, cancels it and waits for its end; the item's list stays until the cleanup. */
  function Popped(s: Tables, t: Id): Tables
  {
    if t in s.tasks then s.(tasks := s.tasks - {t}, ended := s.ended + {t}) else s
  }

  function Unlisted(lists: map<Option<Id>, seq<Id>>, item: Option<Id>, t: Id): map<Option<Id>, seq<Id>>
  {
    if Truthy(item).None? || item !in lists then lists
    else if Remove(lists[item], t) == [] then lists - {item}
    else lists[item := Remove(lists[item], t)]
  }

  function CleanedUp(s: Tables, t: Id): Tables
    requires t in s.bound
  {
    Tables(s.tasks - {t}, Unlisted(s.itemTasks, s.bound[t], t), s.bound, s.ended, s.cleaned + {t})
  }

  datatype Op = Create(task: Id, item: Option<Id>) | End(task: Id) | Pop(task: Id) | Leave(task: Id)

  /** Task ids are new; a task ends by itself or by a stop, and its cleanup, which may run more than once, comes after. */
  predicate Enabled(s: Tables, op: Op)
  {
    match op
    case Create(t, _) => t !in s.bound
    case End(t) => t in s.bound
    case Pop(_) => true
    case Leave(t) => t in s.ended && t in s.bound
  }

  function After(s: Tables, op: Op): Tables
    requires Enabled(s, op)
  {
    match op
    case Create(t, item) => Created(s, t, item)
    case End(t) => s.(ended := s.ended + {t})
    case Pop(t) => Popped(s, t)
    case Leave(t) => CleanedUp(s, t)
  }

  predicate IsRun(s: Tables, ops: seq<Op>)
    decreases |ops|
  {
    ops != [] ==> Enabled(s, ops[0]) && IsRun(After(s, ops[0]), ops[1..])
  }

  function AfterRun(s: Tables, ops: seq<Op>): Tables
    requires IsRun(s, ops)
    decreases |ops|
  {
    if ops == [] then s else AfterRun(After(s, ops[0]), ops[1..])
  }

  /** The tasks of an item that its list must name: those not cleaned up, or all when nothing names the item. */
  ghost predicate Listed(s: Tables, item: Option<Id>, t: Id)
  {
    t in s.bound && s.bound[t] == item && (Truthy(item).Some? ==> t !in s.cleaned)
  }

  ghost predicate Valid(s: Tables)
  {
    && s.cleaned <= s.ended <= s.bound.Keys && s.bound.Keys - s.ended <= s.tasks <= s.bound.Keys - s.cleaned
    && (forall i | i in s.itemTasks :: s.itemTasks[i] != [] && NoDup(s.itemTasks[i]))
    && forall i, t :: t in ListOf(s, i) <==> Listed(s, i, t)
  }

  lemma CreateKeepsValid(s: Tables, t: Id, item: Option<Id>)
    requires Valid(s) && t !in s.bound
    ensures Valid(Created(s, t, item))
  {
    var s' := Created(s, t, item);
    assert t !in ListOf(s, item) by {
      assert !Listed(s, item, t);
    }
    NoDupAppend(ListOf(s, item), t);
    forall i, t' ensures t' in ListOf(s', i) <==> Listed(s', i, t') {
      assert t' in ListOf(s, i) <==> Listed(s, i, t');
    }
  }

  lemma StopKeepsValid(s: Tables, t: Id)
    requires Valid(s)
    ensures Valid(Popped(s, t))
  {
    var s' := Popped(s, t);
    forall i, t' ensures t' in ListOf(s', i) <==> Listed(s', i, t') {
      assert t' in ListOf(s, i) <==> Listed(s, i, t');
    }
  }

  lemma EndKeepsValid(s: Tables, t: Id)
    requires Valid(s) && t in s.bound
    ensures Valid(s.(ended := s.ended + {t}))
  {
    var s' := s.(ended := s.ended + {t});
    forall i, t' ensures t' in ListOf(s', i) <==> Listed(s', i, t') {
      assert t' in ListOf(s, i) <==> Listed(s, i, t');
    }
  }

  lemma CleanupKeepsValid(s: Tables, t: Id)
    requires Valid(s) && t in s.ended
    ensures Valid(CleanedUp(s, t))
  {
    var s', item := CleanedUp(s, t), s.bound[t];
    assert NoDup(ListOf(s, item));
    RemoveSpec(ListOf(s, item), t);
    assert forall x :: x in Remove(ListOf(s, item), t) <==> x in ListOf(s, item) && x != t by {
      forall x ensures x in Remove(ListOf(s, item), t) <==> x in ListOf(s, item) && x != t {
        assert x in Elems(Remove(ListOf(s, item), t)) <==> x in Elems(ListOf(s, item)) - {t};
      }
    }
    forall i, t' ensures t' in ListOf(s', i) <==> Listed(s', i, t') {
      assert t' in ListOf(s, i) <==> Listed(s, i, t');
    }
  }

  lemma OpKeepsValid(s: Tables, op: Op)
    requires Valid(s) && Enabled(s, op)
    ensures Valid(After(s, op))
  {
    match op
    case Create(t, item) => CreateKeepsValid(s, t, item);
    case End(t) => EndKeepsValid(s, t);
    case Pop(t) => StopKeepsValid(s, t);
    case Leave(t) => CleanupKeepsValid(s, t);
  }

  lemma {:induction false} RunsKeepValid(s: Tables, ops: seq<Op>)
    requires Valid(s) && IsRun(s, ops)
    ensures Valid(AfterRun(s, ops))
    decreases |ops|
  {
    if ops != [] {
      OpKeepsValid(s, ops[0]);
      RunsKeepValid(After(s, ops[0]), ops[1..]);
    }
  }

  /** In every run an item has active tasks exactly when one of its tasks has not been cleaned up. */
  lemma ActiveIffNotCleanedUp(ops: seq<Op>, item: Id)
    requires IsRun(EMPTY, ops) && item != ""
    ensures var s := AfterRun(EMPTY, ops);
            HasActiveTasks(s, item) <==> exists t :: t in s.bound && s.bound[t] == Some(item) && t !in s.cleaned
  {
    RunsKeepValid(EMPTY, ops);
    var s := AfterRun(EMPTY, ops);
    if HasActiveTasks(s, item) {
      var t := ListOf(s, Some(item))[0];
      assert t in ListOf(s, Some(item));
      assert Listed(s, Some(item), t);
    }
    forall t | t in s.bound && s.bound[t] == Some(item) && t !in s.cleaned ensures HasActiveTasks(s, item) {
      assert Listed(s, Some(item), t);
      assert t in ListOf(s, Some(item));
    }
  }

  /** A task of the item still runs. */
  ghost predicate SomeRuns(s: Tables, item: Id)
  {
    exists t :: t in s.bound && s.bound[t] == Some(item) && t !in s.ended
  }

  /** A task of the item has ended, by itself or by a stop, and its cleanup has not run yet. */
  ghost predicate SomeWaits(s: Tables, item: Id)
  {
    exists t :: t in s.bound && s.bound[t] == Some(item) && t in s.ended && t !in s.cleaned
  }

  /** The answer is right, in the sense of running tasks, unless all that is left of the item waits for its cleanup. */
  lemma ActiveMeansRunningIff(ops: seq<Op>, item: Id)
    requires IsRun(EMPTY, ops) && item != ""
    ensures var s := AfterRun(EMPTY, ops);
            (HasActiveTasks(s, item) <==> SomeRuns(s, item)) <==> (SomeWaits(s, item) ==> SomeRuns(s, item))
  {
    RunsKeepValid(EMPTY, ops);
    ActiveIffNotCleanedUp(ops, item);
  }

  /** Right after a stop, the only task of its item no longer runs and the item still looks active. */
  lemma StoppedTaskLooksActive()
    ensures var ops := [Create("t", Some("c")), Pop("t")];
            IsRun(EMPTY, ops)
            && var s := AfterRun(EMPTY, ops);
               s.tasks == {} && HasActiveTasks(s, "c") && !SomeRuns(s, "c")
  {
    var s1 := After(EMPTY, Create("t", Some("c")));
    var ops := [Create("t", Some("c")), Pop("t")];
    assert ops[1..] == [Pop("t")] && [Pop("t")][1..] == [];
    assert AfterRun(EMPTY, ops) == After(s1, Pop("t"));
  }

  // --------------------------------------- what the operations tell of the tables

  /** The tasks created for the item, in order. */
  function CreatedFor(ops: seq<Op>, item: Option<Id>): seq<Id>
  {
    if ops == [] then []
    else (if ops[0].Create? && ops[0].item == item then [ops[0].task] else []) + CreatedFor(ops[1..], item)
  }

  function WithoutAll(s: seq<Id>, gone: set<Id>): seq<Id>
  {
    if s == [] then [] else (if s[0] in gone then [] else [s[0]]) + WithoutAll(s[1..], gone)
  }

  lemma {:induction false} WithoutRemoved(s: seq<Id>, t: Id, rest: seq<Id>, gone: set<Id>)
    requires t in gone
    ensures WithoutAll(Remove(s, t) + rest, gone) == WithoutAll(s + rest, gone)
    decreases |s|
  {
    if s != [] {
      assert (s + rest)[1..] == s[1..] + rest;
      if s[0] != t {
        WithoutRemoved(s[1..], t, rest, gone);
        assert (Remove(s, t) + rest)[1..] == Remove(s[1..], t) + rest;
      } else {
        assert Remove(s, t) + rest == s[1..] + rest;
      }
    }
  }

  lemma {:induction false} WithoutNone(s: seq<Id>, gone: set<Id>)
    requires forall t | t in s :: t !in gone
    ensures WithoutAll(s, gone) == s
    decreases |s|
  {
    if s != [] {
      assert s[0] in s;
      WithoutNone(s[1..], gone);
    }
  }

  /** What the list of an item can lose: nothing when nothing names the item. */
  function Gone(s: Tables, item: Option<Id>): set<Id>
  {
    if Truthy(item).Some? then s.cleaned else {}
  }

  lemma {:induction false} CleanedGrows(s: Tables, ops: seq<Op>)
    requires IsRun(s, ops)
    ensures s.cleaned <= AfterRun(s, ops).cleaned
    decreases |ops|
  {
    if ops != [] {
      CleanedGrows(After(s, ops[0]), ops[1..]);
    }
  }

  /** The list after one operation: a new task at its end, or a cleaned one taken out. */
  lemma ListAfter(s: Tables, op: Op, item: Option<Id>)
    requires Valid(s) && Enabled(s, op)
    ensures ListOf(After(s, op), item)
            == if op.Create? && op.item == item then ListOf(s, item) + [op.task]
               else if op.Leave? && Truthy(item).Some? then Remove(ListOf(s, item), op.task)
               else ListOf(s, item)
  {
    if op.Leave? {
      if item in s.itemTasks {
        RemoveSpec(s.itemTasks[item], op.task);
      }
      if s.bound[op.task] != item {
        assert !Listed(s, item, op.task) && op.task !in ListOf(s, item);
      }
    }
  }

  lemma ListAndLater(s: Tables, op: Op, item: Option<Id>, later: seq<Id>, gone: set<Id>)
    requires Valid(s) && Enabled(s, op) && (op.Leave? && Truthy(item).Some? ==> op.task in gone)
    ensures WithoutAll(ListOf(After(s, op), item) + later, gone)
            == WithoutAll(ListOf(s, item) + ((if op.Create? && op.item == item then [op.task] else []) + later), gone)
  {
    ListAfter(s, op, item);
    var list := ListOf(s, item);
    if op.Create? && op.item == item {
      assert list + ([op.task] + later) == (list + [op.task]) + later;
    } else {
      assert [] + later == later;
      if op.Leave? && Truthy(item).Some? {
        WithoutRemoved(list, op.task, later, gone);
      }
    }
  }

  lemma {:induction false} ListGrowsInOrder(s: Tables, ops: seq<Op>, item: Option<Id>)
    requires Valid(s) && IsRun(s, ops)
    ensures ListOf(AfterRun(s, ops), item)
            == WithoutAll(ListOf(s, item) + CreatedFor(ops, item), Gone(AfterRun(s, ops), item))
    decreases |ops|
  {
    var list, made := ListOf(s, item), CreatedFor(ops, item);
    if ops == [] {
      forall t | t in list ensures t !in Gone(s, item) {
        assert Listed(s, item, t);
      }
      WithoutNone(list, Gone(s, item));
      assert list + made == list;
    } else {
      var op, next := ops[0], After(s, ops[0]);
      OpKeepsValid(s, op);
      ListGrowsInOrder(next, ops[1..], item);
      CleanedGrows(next, ops[1..]);
      ListAndLater(s, op, item, CreatedFor(ops[1..], item), Gone(AfterRun(s, ops), item));
      assert list + made == list + ((if op.Create? && op.item == item then [op.task] else []) + CreatedFor(ops[1..], item));
    }
  }

  /** After every run the list of an item holds its tasks in the order of their creation, without those cleaned up. */
  lemma ListIsInOrder(ops: seq<Op>, item: Option<Id>)
    requires IsRun(EMPTY, ops)
    ensures ListOf(AfterRun(EMPTY, ops), item) == WithoutAll(CreatedFor(ops, item), Gone(AfterRun(EMPTY, ops), item))
  {
    ListGrowsInOrder(EMPTY, ops, item);
    assert [] + CreatedFor(ops, item) == CreatedFor(ops, item);
  }

  /** Whether a task was created, and neither stopped nor cleaned up since. */
  predicate InTable(before: bool, ops: seq<Op>, t: Id)
    decreases |ops|
  {
    if ops == [] then before
    else InTable(if ops[0].task != t || ops[0].End? then before else ops[0].Create?, ops[1..], t)
  }

  /** Whether some operation ends the task, by itself or by a stop that finds it in the table. */
  predicate Ends(inTable: bool, ops: seq<Op>, t: Id)
    decreases |ops|
  {
    && ops != []
    && (|| ops[0] == End(t) || (ops[0] == Pop(t) && inTable)
        || Ends(if ops[0].task != t || ops[0].End? then inTable else ops[0].Create?, ops[1..], t))
  }

  /** So is it in the table of tasks; it has ended, and its cleanup has run, when some operation says so. */
  lemma {:induction false} OpsTell(s: Tables, ops: seq<Op>, t: Id)
    requires IsRun(s, ops)
    ensures t in AfterRun(s, ops).tasks <==> InTable(t in s.tasks, ops, t)
    ensures t in AfterRun(s, ops).ended <==> t in s.ended || Ends(t in s.tasks, ops, t)
    ensures t in AfterRun(s, ops).cleaned <==> t in s.cleaned || Leave(t) in ops
    decreases |ops|
  {
    if ops != [] {
      OpsTell(After(s, ops[0]), ops[1..], t);
      assert ops == [ops[0]] + ops[1..];
    }
  }

  class TaskTable {
    var tasks: set<Id>
    var itemTasks: map<Option<Id>, seq<Id>>
    ghost var bound: map<Id, Option<Id>>
    ghost var ended: set<Id>
    ghost var cleaned: set<Id>

    ghost function Value(): Tables
      reads this
    {
      Tables(tasks, itemTasks, bound, ended, cleaned)
    }

    constructor ()
      ensures Value() == EMPTY
    {
      tasks, itemTasks, bound, ended, cleaned := {}, map[], map[], {}, {};
    }

    method CreateTask(taskId: Id, item: Option<Id>)
      requires Valid(Value()) && taskId !in bound
      modifies this
      ensures Valid(Value()) && Value() == After(old(Value()), Create(taskId, item))
    {
      CreateKeepsValid(Value(), taskId, item);
      ghost var s := Value();
      tasks := tasks + {taskId};
      if item in itemTasks && itemTasks[item] != [] {
        itemTasks := itemTasks[item := itemTasks[item] + [taskId]];
      } else {
        assert ListOf(s, item) + [taskId] == [taskId];
        itemTasks := itemTasks[item := [taskId]];
      }
      bound := bound[taskId := item];
    }

    /** Pop and cancel; the cancelled task's done callback is left to the event loop. */
    method StopTask(taskId: Id) returns (found: bool)
      requires Valid(Value())
      modifies this
      ensures Valid(Value()) && Value() == After(old(Value()), Pop(taskId))
      ensures found <==> taskId in old(tasks)
    {
      StopKeepsValid(Value(), taskId);
      found := taskId in tasks;
      if found {
        tasks := tasks - {taskId};
        ended := ended + {taskId};
      }
    }

    /** The done callback of a task; it may run more than once. */
    method CleanupTask(taskId: Id, item: Option<Id>)
      requires Valid(Value()) && taskId in ended && taskId in bound && bound[taskId] == item
      modifies this
      ensures Valid(Value()) && Value() == After(old(Value()), Leave(taskId))
    {
      CleanupKeepsValid(Value(), taskId);
      tasks := tasks - {taskId};
      if item.Some? && item.value != "" && item in itemTasks {
        RemoveSpec(itemTasks[item], taskId);
        ghost var lists := itemTasks;
        if taskId in itemTasks[item] {
          var rest := Remove(itemTasks[item], taskId);
          itemTasks := itemTasks[item := rest];
          if rest == [] {
            itemTasks := itemTasks - {item};
            assert itemTasks == lists - {item};
          }
        } else {
          assert itemTasks == itemTasks[item := Remove(itemTasks[item], taskId)];
        }
        assert itemTasks == Unlisted(lists, item, taskId);
      }
      cleaned := cleaned + {taskId};
    }
  }

  /** The list without the first occurrence of t. */
  function Remove(s: seq<Id>, t: Id): seq<Id>
  {
    if s == [] then [] else if s[0] == t then s[1..] else [s[0]] + Remove(s[1..], t)
  }

  lemma {:induction false} RemoveSpec(s: seq<Id>, t: Id)
    requires NoDup(s)
    ensures NoDup(Remove(s, t)) && Elems(Remove(s, t)) == Elems(s) - {t}
    ensures t !in s ==> Remove(s, t) == s
    ensures |Remove(s, t)| == |s| - if t in s then 1 else 0
  {
    if s != [] {
      assert s == [s[0]] + s[1..] && s[0] !in s[1..] && NoDup(s[1..]);
      RemoveSpec(s[1..], t);
      assert Elems(s) == {s[0]} + Elems(s[1..]);
      if s[0] != t {
        assert s[0] !in Remove(s[1..], t) by {
          assert s[0] !in Elems(Remove(s[1..], t));
        }
        NoDupConcat([s[0]], Remove(s[1..], t));
        assert Elems(Remove(s, t)) == {s[0]} + Elems(Remove(s[1..], t));
      }
    }
  }

  // ---------------------------------------- iterating over the live list

  /**
   The loop over the item's list: the iterator stands at `next`, the tasks in
   `stopped` were stopped by it.  `finished` are those cleaned up without that, `popped`
   those that another stop has taken out of the table first; at one of them the loop fails.
   An empty list is dropped from the table, and later tasks are `elsewhere`, in a new list.
   */
  datatype Loop = Loop(list: seq<Id>, next: nat, stopped: set<Id>, finished: set<Id>,
                       popped: set<Id>, elsewhere: set<Id>, failed: bool)

  function StartLoop(list: seq<Id>): Loop
  {
    Loop(list, 0, {}, {}, {}, {}, false)
  }

  /**
   A step of the loop; a stop from elsewhere; the cleanup of a task, which takes it out of the
   list; or a new task, which is put at the end of it.
   */
  datatype Event = StopNext | OtherStop(task: Id) | Cleanup(task: Id) | Append(task: Id)

  predicate CanHappen(l: Loop, e: Event)
  {
    match e
    case StopNext => !l.failed && l.next < |l.list|
    case OtherStop(t) => t in l.list && t !in l.stopped
    case Cleanup(t) => t in l.list || t in l.elsewhere
    case Append(t) => t !in l.list && t !in l.elsewhere && t !in l.stopped && t !in l.finished
  }

  function Happen(l: Loop, e: Event): Loop
    requires CanHappen(l, e)
  {
    match e
    case StopNext =>
      if l.list[l.next] in l.popped then l.(failed := true)
      else l.(next := l.next + 1, stopped := l.stopped + {l.list[l.next]})
    case OtherStop(t) => l.(popped := l.popped + {t})
    case Cleanup(t) =>
      if t in l.list then
        l.(list := Remove(l.list, t), finished := if t in l.stopped then l.finished else l.finished + {t})
      else l.(elsewhere := l.elsewhere - {t}, finished := l.finished + {t})
    case Append(t) => if l.list != [] then l.(list := l.list + [t]) else l.(elsewhere := l.elsewhere + {t})
  }

  predicate IsLoopRun(l: Loop, es: seq<Event>)
    decreases |es|
  {
    es != [] ==> CanHappen(l, es[0]) && IsLoopRun(Happen(l, es[0]), es[1..])
  }

  function AfterEvents(l: Loop, es: seq<Event>): Loop
    requires IsLoopRun(l, es)
    decreases |es|
  {
    if es == [] then l else AfterEvents(Happen(l, es[0]), es[1..])
  }

  /**
   The cleanup of a task behind the iterator slides the next task past it; a task appended to a
   list that has become shorter than where the iterator stands, or is put in a new list, is out
   of its reach from the start.
   */
  function Slides(l: Loop, e: Event): set<Id>
  {
    if e.Cleanup? && l.next < |l.list| && e.task in l.list[..l.next] then {l.list[l.next]}
    else if e.Append? && (l.next > |l.list| || l.list == []) then {e.task}
    else {}
  }

  /** The new tasks of a run. */
  function Appended(es: seq<Event>): set<Id>
  {
    if es == [] then {} else (if es[0].Append? then {es[0].task} else {}) + Appended(es[1..])
  }

  function SlidPast(l: Loop, es: seq<Event>): set<Id>
    requires IsLoopRun(l, es)
    decreases |es|
  {
    if es == [] then {} else Slides(l, es[0]) + SlidPast(Happen(l, es[0]), es[1..])
  }

  /** Tasks the iterator can still reach, and those out of its reach that it has not stopped. */
  function Ahead(l: Loop): set<Id>
  {
    if l.next < |l.list| then Elems(l.list[l.next..]) else {}
  }

  function Missed(l: Loop): set<Id>
  {
    (Elems(l.list) - Ahead(l) - l.stopped) + l.elsewhere
  }

  ghost predicate LoopInv(l: Loop)
  {
    && NoDup(l.list)
    && Ahead(l) !! l.stopped
    && l.finished !! Elems(l.list)
    && l.elsewhere !! Elems(l.list) + l.stopped + l.finished
  }

  lemma {:induction false} RemoveAt(s: seq<Id>, at: nat)
    requires NoDup(s) && at < |s|
    ensures Remove(s, s[at]) == s[..at] + s[at + 1..]
    decreases |s|
  {
    if at > 0 {
      assert s[0] != s[at] && s[1..][at - 1] == s[at];
      RemoveAt(s[1..], at - 1);
      assert [s[0]] + (s[1..][..at - 1] + s[1..][at..]) == s[..at] + s[at + 1..];
    }
  }

  /** What a removal at or after an index, or before it, does to the part from there on. */
  lemma TailAfterRemoval(s: seq<Id>, t: Id, next: nat)
    requires NoDup(s) && t in s && next < |s|
    ensures var rest := Remove(s, t);
            if t in s[..next] then Elems(if next < |rest| then rest[next..] else []) == Elems(s[next..]) - {s[next]}
            else Elems(if next < |rest| then rest[next..] else []) == Elems(s[next..]) - {t}
  {
    var at :| 0 <= at < |s| && s[at] == t;
    var rest := Remove(s, t);
    RemoveAt(s, at);
    if at < next {
      assert s[..next][at] == t;
      assert rest[next..] == s[next + 1..];
      assert Elems(s[next + 1..]) == Elems(s[next..]) - {s[next]} by {
        TailElems(s, next);
      }
    } else {
      assert t !in s[..next];
      assert next < |rest| ==> rest[next..] == s[next..at] + s[at + 1..];
      MiddleElems(s, next, at);
    }
  }

  lemma TailElems(s: seq<Id>, next: nat)
    requires NoDup(s) && next < |s|
    ensures Elems(s[next + 1..]) == Elems(s[next..]) - {s[next]}
  {
    assert s[next..] == [s[next]] + s[next + 1..];
  }

  lemma MiddleElems(s: seq<Id>, next: nat, at: nat)
    requires NoDup(s) && next <= at < |s|
    ensures Elems(s[next..at] + s[at + 1..]) == Elems(s[next..]) - {s[at]}
  {
    assert s[next..] == s[next..at] + [s[at]] + s[at + 1..];
    assert s[at] !in s[next..at] && s[at] !in s[at + 1..];
  }

  lemma CleanupAhead(l: Loop, t: Id)
    requires LoopInv(l) && t in l.list && l.next < |l.list| && t !in l.list[..l.next]
    ensures var l' := Happen(l, Cleanup(t)); LoopInv(l') && Missed(l') == Missed(l)
  {
    var l' := Happen(l, Cleanup(t));
    RemoveSpec(l.list, t);
    TailAfterRemoval(l.list, t, l.next);
    assert Ahead(l') == Ahead(l) - {t};
    assert l.list == l.list[..l.next] + l.list[l.next..];
    assert t in Ahead(l);
  }

  lemma CleanupBehind(l: Loop, t: Id)
    requires LoopInv(l) && t in l.list && l.next < |l.list| && t in l.list[..l.next]
    ensures var l' := Happen(l, Cleanup(t)); LoopInv(l') && Missed(l') == Missed(l) + {l.list[l.next]} - {t}
  {
    var l' := Happen(l, Cleanup(t));
    var x := l.list[l.next];
    RemoveSpec(l.list, t);
    TailAfterRemoval(l.list, t, l.next);
    assert Ahead(l') == Ahead(l) - {x};
    assert x == l.list[l.next..][0] && x in Ahead(l) && x in Elems(l.list);
    BehindIsNotAhead(l.list, l.next, t);
  }

  lemma CleanupMisses(l: Loop, t: Id)
    requires LoopInv(l) && CanHappen(l, Cleanup(t))
    ensures var l' := Happen(l, Cleanup(t));
            LoopInv(l') && Missed(l') == Missed(l) + Slides(l, Cleanup(t)) - l'.finished
  {
    if t !in l.list {
    } else if l.next >= |l.list| {
      RemoveSpec(l.list, t);
    } else if t in l.list[..l.next] {
      CleanupBehind(l, t);
      assert Slides(l, Cleanup(t)) == {l.list[l.next]};
      MissedAreUnfinished(l, t);
    } else {
      CleanupAhead(l, t);
      MissedAreUnfinished(l, t);
    }
  }

  lemma MissedAreUnfinished(l: Loop, t: Id)
    requires LoopInv(l) && t in l.list && l.next < |l.list|
    ensures Missed(l) !! l.finished && l.list[l.next] !in l.finished + l.stopped
    ensures t in l.stopped ==> t !in Missed(l)
  {
    assert l.list[l.next] == l.list[l.next..][0];
    assert l.list[l.next] in Ahead(l) && l.list[l.next] in Elems(l.list);
  }

  lemma BehindIsNotAhead(s: seq<Id>, next: nat, t: Id)
    requires NoDup(s) && next < |s| && t in s[..next]
    ensures t !in s[next..]
  {
    var i :| 0 <= i < next && s[i] == t;
    forall j | 0 <= j < |s[next..]| ensures s[next..][j] != t {
      assert s[next..][j] == s[next + j];
    }
  }

  lemma StopMisses(l: Loop)
    requires LoopInv(l) && CanHappen(l, StopNext)
    ensures var l' := Happen(l, StopNext); LoopInv(l') && Missed(l') == Missed(l)
  {
    TailElems(l.list, l.next);
    assert l.list[l.next] == l.list[l.next..][0] && l.list[l.next] in Ahead(l);
  }

  lemma AppendAhead(l: Loop, t: Id)
    requires LoopInv(l) && CanHappen(l, Append(t)) && l.list != [] && l.next <= |l.list|
    ensures var l' := Happen(l, Append(t)); LoopInv(l') && Missed(l') == Missed(l)
  {
    NoDupAppend(l.list, t);
    AheadGrows(l, t);
  }

  lemma ElemsAppend(s: seq<Id>, t: Id)
    ensures Elems(s + [t]) == Elems(s) + {t}
  {
  }

  lemma AheadIs(l: Loop)
    requires l.next <= |l.list|
    ensures Ahead(l) == Elems(l.list[l.next..])
  {
  }

  lemma AheadGrows(l: Loop, t: Id)
    requires CanHappen(l, Append(t)) && l.list != [] && l.next <= |l.list|
    ensures var l' := Happen(l, Append(t)); Elems(l'.list) == Elems(l.list) + {t} && Ahead(l') == Ahead(l) + {t}
  {
    var rest := l.list[l.next..];
    AheadIs(l);
    AheadIs(Happen(l, Append(t)));
    ElemsAppend(l.list, t);
    ElemsAppend(rest, t);
    assert (l.list + [t])[l.next..] == rest + [t];
  }

  lemma AppendBehind(l: Loop, t: Id)
    requires LoopInv(l) && CanHappen(l, Append(t)) && (l.list == [] || l.next > |l.list|)
    ensures var l' := Happen(l, Append(t)); LoopInv(l') && Missed(l') == Missed(l) + {t}
  {
    if l.list != [] {
      NoDupAppend(l.list, t);
      assert Elems(l.list + [t]) == Elems(l.list) + {t};
    }
  }

  lemma AppendMisses(l: Loop, t: Id)
    requires LoopInv(l) && CanHappen(l, Append(t))
    ensures var l' := Happen(l, Append(t)); LoopInv(l') && Missed(l') == Missed(l) + Slides(l, Append(t))
  {
    if l.list != [] && l.next <= |l.list| {
      AppendAhead(l, t);
    } else {
      AppendBehind(l, t);
    }
  }

  /** All tasks there are: listed, in a new list, stopped or finished. */
  function Everyone(l: Loop): set<Id>
  {
    Elems(l.list) + l.elsewhere + l.stopped + l.finished
  }

  lemma CleanupKeepsEveryone(l: Loop, t: Id)
    requires LoopInv(l) && CanHappen(l, Cleanup(t))
    ensures Everyone(Happen(l, Cleanup(t))) == Everyone(l)
  {
    if t in l.list {
      RemoveSpec(l.list, t);
      assert t in Elems(l.list);
    }
  }

  lemma EventKeepsEveryone(l: Loop, e: Event)
    requires LoopInv(l) && CanHappen(l, e)
    ensures Everyone(Happen(l, e)) == Everyone(l) + if e.Append? then {e.task} else {}
  {
    match e
    case StopNext => assert l.list[l.next] in Elems(l.list);
    case OtherStop(_) =>
    case Cleanup(t) => CleanupKeepsEveryone(l, t);
    case Append(t) => assert Elems(l.list + [t]) == Elems(l.list) + {t};
  }

  /** One event makes the iterator miss just the task it slides past it, until that is cleaned up. */
  lemma EventMisses(l: Loop, e: Event)
    requires LoopInv(l) && CanHappen(l, e)
    ensures var l' := Happen(l, e);
            LoopInv(l') && l.finished <= l'.finished && Missed(l') == Missed(l) + Slides(l, e) - l'.finished
  {
    MissedUnfinished(l);
    match e
    case StopNext => StopMisses(l);
    case OtherStop(_) =>
    case Cleanup(t) => CleanupMisses(l, t);
    case Append(t) => AppendMisses(l, t);
  }

  lemma MissedUnfinished(l: Loop)
    requires LoopInv(l)
    ensures Missed(l) !! l.finished
  {
  }

  lemma MissedInSteps(before: set<Id>, slid: set<Id>, middle: set<Id>, later: set<Id>, after: set<Id>, f: set<Id>, f': set<Id>)
    requires middle == before + slid - f && after == middle + later - f' && f <= f'
    ensures after == before + (slid + later) - f'
  {
  }

  lemma {:induction false} RunMisses(l: Loop, es: seq<Event>)
    requires LoopInv(l) && IsLoopRun(l, es)
    ensures var e := AfterEvents(l, es);
            && LoopInv(e) && l.finished <= e.finished
            && Missed(e) == Missed(l) + SlidPast(l, es) - e.finished
            && Everyone(e) == Everyone(l) + Appended(es)
    decreases |es|
  {
    MissedUnfinished(l);
    if es != [] {
      var l', e := Happen(l, es[0]), AfterEvents(l, es);
      EventMisses(l, es[0]);
      EventKeepsEveryone(l, es[0]);
      RunMisses(l', es[1..]);
      MissedInSteps(Missed(l), Slides(l, es[0]), Missed(l'), SlidPast(l', es[1..]), Missed(e), l'.finished, e.finished);
    }
  }

  /**
   When the loop over the live list has reached its end, the tasks that are neither
   stopped nor finished, new tasks included, are exactly those slid past the iterator and not
   finished since.
   */
  lemma LiveLoopMisses(list: seq<Id>, es: seq<Event>)
    requires NoDup(list) && IsLoopRun(StartLoop(list), es)
    requires var e := AfterEvents(StartLoop(list), es); e.next >= |e.list|
    ensures var l := StartLoop(list);
            var e := AfterEvents(l, es);
            Elems(list) + Appended(es) - e.stopped - e.finished == SlidPast(l, es) - e.finished
  {
    var l := StartLoop(list);
    assert list[0..] == list;
    RunMisses(l, es);
    var e := AfterEvents(l, es);
    assert Missed(l) == {} && Missed(e) == (Elems(e.list) - e.stopped) + e.elsewhere;
  }

  lemma NothingLeft(all: set<Id>, stopped: set<Id>, finished: set<Id>)
    ensures all <= stopped + finished <==> all - stopped - finished == {}
  {
    forall x | all - stopped - finished == {} && x in all ensures x in stopped + finished {
      assert x !in all - stopped - finished;
    }
  }

  /**
   So it stops every task that does not finish by itself exactly when no task that stays
   unfinished is slid past the iterator by a cleanup behind it.
   */
  lemma LiveLoopStopsAllIff(list: seq<Id>, es: seq<Event>)
    requires NoDup(list) && IsLoopRun(StartLoop(list), es)
    requires var e := AfterEvents(StartLoop(list), es); e.next >= |e.list|
    ensures var l := StartLoop(list);
            var e := AfterEvents(l, es);
            Elems(list) + Appended(es) <= e.stopped + e.finished <==> SlidPast(l, es) <= e.finished
  {
    LiveLoopMisses(list, es);
    var l := StartLoop(list);
    var e := AfterEvents(l, es);
    NothingLeft(Elems(list) + Appended(es), e.stopped, e.finished);
    NothingLeft(SlidPast(l, es), {}, e.finished);
  }

  /** With three tasks: the cleanup of the first, after two stops, hides the third from the loop. */
  lemma ThirdTaskIsSkipped()
    ensures var l, es := StartLoop(["a", "b", "c"]), [StopNext, StopNext, Cleanup("a")];
            IsLoopRun(l, es) && AfterEvents(l, es) == Loop(["b", "c"], 2, {"a", "b"}, {}, {}, {}, false)
  {
    var l := StartLoop(["a", "b", "c"]);
    var l2 := Happen(Happen(l, StopNext), StopNext);
    var es := [StopNext, StopNext, Cleanup("a")];
    assert es[1..] == [StopNext, Cleanup("a")] && es[1..][1..] == [Cleanup("a")] && es[1..][1..][1..] == [];
    assert Happen(l2, Cleanup("a")) == Loop(["b", "c"], 2, {"a", "b"}, {}, {}, {}, false);
  }

  /** When another stop comes first for one task, the loop fails at it and leaves the rest running. */
  lemma ForeignStopEndsTheLoop()
    ensures var l, es := StartLoop(["a", "b"]), [OtherStop("a"), StopNext];
            IsLoopRun(l, es) && AfterEvents(l, es) == Loop(["a", "b"], 0, {}, {}, {"a"}, {}, true)
  {
    var es := [OtherStop("a"), StopNext];
    assert es[1..] == [StopNext] && es[1..][1..] == [];
  }
}
