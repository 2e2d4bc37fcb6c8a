/**
 The task registry shared by several processes through Redis: a hash from task to
 item, and for each item the set of its tasks.  A pipeline or a single command is
 one step; anything may happen between two steps.
 */
module Tasks {
  import opened Prelude

  type Item = Option<Id>

  /** Where a cleanup or a stop stands. */
  datatype Phase =
    | Publish(task: Id, item: Item)   // the item was looked up; the stop command comes next
    | Remove(task: Id, item: Item)    // the pipeline that deletes the hash entry and the set member comes next
    | CountSet(of: Id)                // the cardinality of the item's set is read next
    | DeleteSet(of: Id)               // the set was found empty; its key is deleted next

  /**
   `bound` remembers the item each task was created for, `saved` which tasks were
   written to Redis.  `live` are the tasks in their owner's table, `commands` the
   published stop commands not yet delivered.
   */
  datatype Registry = Registry(
    hash: map<Id, Item>, sets: map<Id, set<Id>>,
    bound: map<Id, Item>, saved: set<Id>,
    live: set<Id>, cancelled: set<Id>, commands: set<Id>,
    threads: map<nat, Phase>)

  const EMPTY := Registry(map[], map[], map[], {}, {}, {}, {}, map[])

  datatype Step =
    | Create(task: Id, item: Item)    // a process starts a task and puts it in its table
    | Save(task: Id)                  // the pipeline that registers it
    | Finish(thread: nat, task: Id)   // the owner's done callback starts a cleanup
    | Stop(thread: nat, task: Id)     // any process looks up the task's item to stop it
    | Advance(thread: nat)            // the next step of a cleanup or stop
    | Pop(task: Id)                   // the owner drops the task from its table
    | Deliver(task: Id)               // the owner receives a stop command

  function SetOf(r: Registry, i: Id): set<Id>
  {
    if i in r.sets then r.sets[i] else {}
  }

  predicate HasActiveTasks(r: Registry, i: Id)
  {
    SetOf(r, i) != {}
  }

  /** Ids are fresh, a task is saved once, and only saved tasks are stopped. */
  predicate Enabled(r: Registry, step: Step)
  {
    match step
    case Create(t, _) => t !in r.bound
    case Save(t) => t in r.bound && t !in r.saved
    case Finish(th, t) => th !in r.threads && t in r.bound
    case Stop(th, t) => th !in r.threads && t in r.saved
    case Advance(th) => th in r.threads
    case Pop(t) => t in r.bound
    case Deliver(t) => t in r.commands
  }

  function AdvanceThread(r: Registry, th: nat): Registry
    requires th in r.threads
  {
    match r.threads[th]
    case Publish(t, item) => r.(commands := r.commands + {t}, threads := r.threads[th := Remove(t, item)])
    case Remove(t, item) =>
      if item.Some? then
        r.(hash := r.hash - {t}, sets := r.sets[item.value := SetOf(r, item.value) - {t}],
           threads := r.threads[th := CountSet(item.value)])
      else r.(hash := r.hash - {t}, threads := r.threads - {th})
    case CountSet(i) =>
      if SetOf(r, i) == {} then r.(threads := r.threads[th := DeleteSet(i)]) else r.(threads := r.threads - {th})
    case DeleteSet(i) => r.(sets := r.sets - {i}, threads := r.threads - {th})
  }

  function Take(r: Registry, step: Step): Registry
    requires Enabled(r, step)
  {
    match step
    case Create(t, item) => r.(bound := r.bound[t := Truthy(item)], live := r.live + {t})
    case Save(t) =>
      var item := r.bound[t];
      r.(hash := r.hash[t := item], saved := r.saved + {t},
         sets := if item.Some? then r.sets[item.value := SetOf(r, item.value) + {t}] else r.sets)
    case Finish(th, t) => r.(threads := r.threads[th := Remove(t, r.bound[t])])
    case Stop(th, t) => r.(threads := r.threads[th := Publish(t, if t in r.hash then r.hash[t] else None)])
    case Advance(th) => AdvanceThread(r, th)
    case Pop(t) => r.(live := r.live - {t})
    case Deliver(t) => r.(commands := r.commands - {t}, cancelled := if t in r.live then r.cancelled + {t} else r.cancelled)
  }

  predicate IsRun(r: Registry, steps: seq<Step>)
    decreases |steps|
  {
    steps != [] ==> Enabled(r, steps[0]) && IsRun(Take(r, steps[0]), steps[1..])
  }

  function After(r: Registry, steps: seq<Step>): Registry
    requires IsRun(r, steps)
    decreases |steps|
  {
    if steps == [] then r else After(Take(r, steps[0]), steps[1..])
  }

  // ---------------------------------------------------------- invariants

  /** The item a thread carries is the task's own, or the task has already gone for good. */
  ghost predicate Carries(r: Registry, t: Id, item: Item)
  {
    t in r.bound && (item == r.bound[t] || (item.None? && t in r.saved && t !in r.hash))
  }

  ghost predicate WellBound(r: Registry)
  {
    && (forall t | t in r.saved :: t in r.bound)
    && (forall t | t in r.hash :: t in r.saved && r.hash[t] == r.bound[t])
    && (forall th | th in r.threads ::
          (r.threads[th].Publish? || r.threads[th].Remove? ==> Carries(r, r.threads[th].task, r.threads[th].item)))
  }

  /** Each member of an item's set is a hash key bound to that item. */
  ghost predicate MembersAreHashed(r: Registry)
  {
    forall i, t | t in SetOf(r, i) :: t in r.hash && r.hash[t] == Some(i)
  }

  /** Each hash key bound to the item is a member of its set. */
  ghost predicate HashedAreMembers(r: Registry, i: Id)
  {
    forall t | t in r.hash && r.hash[t] == Some(i) :: t in SetOf(r, i)
  }

  /** A thread has found the item's set empty and has not deleted its key yet. */
  ghost predicate InWindow(r: Registry, i: Id)
  {
    exists th :: th in r.threads && r.threads[th] == DeleteSet(i)
  }

  ghost predicate WindowIsEmpty(r: Registry, i: Id)
  {
    InWindow(r, i) ==> SetOf(r, i) == {}
  }

  ghost predicate SavesFor(r: Registry, step: Step, i: Id)
  {
    step.Save? && step.task in r.bound && r.bound[step.task] == Some(i)
  }

  /** No task is saved for the item between a thread's count and its delete. */
  ghost predicate QuietFor(r: Registry, steps: seq<Step>, i: Id)
    requires IsRun(r, steps)
    decreases |steps|
  {
    steps != [] ==>
      && !(InWindow(r, i) && SavesFor(r, steps[0], i))
      && QuietFor(Take(r, steps[0]), steps[1..], i)
  }

  lemma StepKeepsSavedBound(r: Registry, step: Step)
    requires WellBound(r) && Enabled(r, step)
    ensures var r' := Take(r, step);
            && (forall t | t in r'.saved :: t in r'.bound)
            && forall t | t in r'.hash :: t in r'.saved && r'.hash[t] == r'.bound[t]
  {
  }

  lemma StepKeepsCarried(r: Registry, step: Step, t: Id, item: Item)
    requires WellBound(r) && Enabled(r, step) && Carries(r, t, item)
    ensures Carries(Take(r, step), t, item)
  {
  }

  lemma StepKeepsBound(r: Registry, step: Step)
    requires WellBound(r) && Enabled(r, step)
    ensures WellBound(Take(r, step))
  {
    StepKeepsSavedBound(r, step);
    var r' := Take(r, step);
    forall th | th in r'.threads && (r'.threads[th].Publish? || r'.threads[th].Remove?)
      ensures Carries(r', r'.threads[th].task, r'.threads[th].item)
    {
      if th in r.threads && r'.threads[th] == r.threads[th] {
        StepKeepsCarried(r, step, r.threads[th].task, r.threads[th].item);
      } else if step.Advance? {
        StepKeepsCarried(r, step, r.threads[th].task, r.threads[th].item);
      }
    }
  }

  lemma StepKeepsMembersHashed(r: Registry, step: Step)
    requires WellBound(r) && MembersAreHashed(r) && Enabled(r, step)
    ensures MembersAreHashed(Take(r, step))
  {
    var r' := Take(r, step);
    forall i, t | t in SetOf(r', i) ensures t in r'.hash && r'.hash[t] == Some(i) {
      if t in SetOf(r, i) {
        assert t in r.hash && r.hash[t] == Some(i);
      } else {
        assert step == Save(t);
      }
    }
  }

  /** In every interleaving, every member of every item's set is a hash key bound to that item. */
  lemma {:induction false} RunsKeepMembersHashed(r: Registry, steps: seq<Step>)
    requires WellBound(r) && MembersAreHashed(r) && IsRun(r, steps)
    ensures WellBound(After(r, steps)) && MembersAreHashed(After(r, steps))
    decreases |steps|
  {
    if steps != [] {
      StepKeepsBound(r, steps[0]);
      StepKeepsMembersHashed(r, steps[0]);
      RunsKeepMembersHashed(Take(r, steps[0]), steps[1..]);
    }
  }

  /**
   One step loses a hashed task of the item from its set exactly when it deletes
   the set's key while the set has members.
   */
  lemma ReverseInclusionBreaksIff(r: Registry, step: Step, i: Id)
    requires WellBound(r) && MembersAreHashed(r) && HashedAreMembers(r, i) && Enabled(r, step)
    ensures !HashedAreMembers(Take(r, step), i)
            <==> step.Advance? && r.threads[step.thread] == DeleteSet(i) && SetOf(r, i) != {}
  {
    var r' := Take(r, step);
    if step.Advance? && r.threads[step.thread] == DeleteSet(i) && SetOf(r, i) != {} {
      var t :| t in SetOf(r, i);
      assert t in r'.hash && r'.hash[t] == Some(i) && t !in SetOf(r', i);
    }
  }

  /** The inclusion holds in every state of the run. */
  ghost predicate AlwaysHashedMembers(r: Registry, steps: seq<Step>, i: Id)
    requires IsRun(r, steps)
    decreases |steps|
  {
    HashedAreMembers(r, i) && (steps != [] ==> AlwaysHashedMembers(Take(r, steps[0]), steps[1..], i))
  }

  /** Some delete of the run hits a set with members. */
  ghost predicate DeletesMembers(r: Registry, steps: seq<Step>, i: Id)
    requires IsRun(r, steps)
    decreases |steps|
  {
    && steps != []
    && (|| (steps[0].Advance? && r.threads[steps[0].thread] == DeleteSet(i) && SetOf(r, i) != {})
        || DeletesMembers(Take(r, steps[0]), steps[1..], i))
  }

  /** Over a whole run no hashed task is ever missing from its item's set exactly when no delete hits members. */
  lemma {:induction false} AlwaysHashedMembersIff(r: Registry, steps: seq<Step>, i: Id)
    requires WellBound(r) && MembersAreHashed(r) && HashedAreMembers(r, i) && IsRun(r, steps)
    ensures AlwaysHashedMembers(r, steps, i) <==> !DeletesMembers(r, steps, i)
    decreases |steps|
  {
    if steps != [] {
      var r' := Take(r, steps[0]);
      StepKeepsBound(r, steps[0]);
      StepKeepsMembersHashed(r, steps[0]);
      ReverseInclusionBreaksIff(r, steps[0], i);
      if HashedAreMembers(r', i) {
        AlwaysHashedMembersIff(r', steps[1..], i);
      }
    }
  }

  lemma QuietStepKeepsWindowEmpty(r: Registry, step: Step, i: Id)
    requires WindowIsEmpty(r, i) && Enabled(r, step) && !(InWindow(r, i) && SavesFor(r, step, i))
    ensures WindowIsEmpty(Take(r, step), i)
  {
    var r' := Take(r, step);
    if InWindow(r', i) {
      var th :| th in r'.threads && r'.threads[th] == DeleteSet(i);
      if !InWindow(r, i) {
        assert step.Advance? && step.thread == th;
      }
    }
  }

  /** Without a save in the window, the item's set and the hash agree throughout. */
  lemma {:induction false} QuietRunsKeepHashedMembers(r: Registry, steps: seq<Step>, i: Id)
    requires WellBound(r) && MembersAreHashed(r) && HashedAreMembers(r, i) && WindowIsEmpty(r, i)
    requires IsRun(r, steps) && QuietFor(r, steps, i)
    ensures HashedAreMembers(After(r, steps), i)
    decreases |steps|
  {
    if steps != [] {
      StepKeepsBound(r, steps[0]);
      StepKeepsMembersHashed(r, steps[0]);
      if steps[0].Advance? && r.threads[steps[0].thread] == DeleteSet(i) {
        assert InWindow(r, i);
      }
      ReverseInclusionBreaksIff(r, steps[0], i);
      QuietStepKeepsWindowEmpty(r, steps[0], i);
      QuietRunsKeepHashedMembers(Take(r, steps[0]), steps[1..], i);
    }
  }

  /** After any such run from an empty registry, an item is active exactly when the hash holds a task of it. */
  lemma ActiveIffHashed(steps: seq<Step>, i: Id)
    requires IsRun(EMPTY, steps) && QuietFor(EMPTY, steps, i)
    ensures var r := After(EMPTY, steps);
            HasActiveTasks(r, i) <==> exists t :: t in r.hash && r.hash[t] == Some(i)
  {
    RunsKeepMembersHashed(EMPTY, steps);
    QuietRunsKeepHashedMembers(EMPTY, steps, i);
    var r := After(EMPTY, steps);
    if HasActiveTasks(r, i) {
      var t :| t in SetOf(r, i);
      assert t in r.hash && r.hash[t] == Some(i);
    }
  }

  // ------------------------------------------- what the registry says of its past

  /** Something that a step may be, given the registry it finds. */
  type Kind = (Registry, Step) -> bool

  predicate Happens(r: Registry, steps: seq<Step>, kind: Kind)
    requires IsRun(r, steps)
    decreases |steps|
  {
    steps != [] && (kind(r, steps[0]) || Happens(Take(r, steps[0]), steps[1..], kind))
  }

  /** Some step of the run is `on`, and no later one is `off`. */
  predicate OnLast(r: Registry, steps: seq<Step>, on: Kind, off: Kind)
    requires IsRun(r, steps)
    decreases |steps|
  {
    && steps != []
    && (|| (on(r, steps[0]) && !Happens(Take(r, steps[0]), steps[1..], off))
        || OnLast(Take(r, steps[0]), steps[1..], on, off))
  }

  /** What only `on` steps make true, and only `off` steps false, tells which of the two came last. */
  lemma {:induction false} HoldsIff(r: Registry, steps: seq<Step>, holds: Registry -> bool, on: Kind, off: Kind)
    requires IsRun(r, steps)
    requires forall q: Registry, step: Step | Enabled(q, step) :: holds(Take(q, step)) <==> on(q, step) || (holds(q) && !off(q, step))
    ensures holds(After(r, steps)) <==> (holds(r) && !Happens(r, steps, off)) || OnLast(r, steps, on, off)
    decreases |steps|
  {
    if steps != [] {
      HoldsIff(Take(r, steps[0]), steps[1..], holds, on, off);
    }
  }

  function Creates(t: Id): Kind
  {
    (r: Registry, step: Step) => step.Create? && step.task == t
  }

  function Pops(t: Id): Kind
  {
    (r: Registry, step: Step) => step == Pop(t)
  }

  function Saves(t: Id): Kind
  {
    (r: Registry, step: Step) => step == Save(t)
  }

  function SavesUnder(t: Id, i: Id): Kind
  {
    (r: Registry, step: Step) => step == Save(t) && t in r.bound && r.bound[t] == Some(i)
  }

  /** The step deletes the task's hash entry. */
  function Removes(t: Id): Kind
  {
    (r: Registry, step: Step) => step.Advance? && step.thread in r.threads
                                 && r.threads[step.thread].Remove? && r.threads[step.thread].task == t
  }

  /** The step takes the task out of the item's set, or deletes the whole set. */
  function Unlists(t: Id, i: Id): Kind
  {
    (r: Registry, step: Step) => step.Advance? && step.thread in r.threads
                                 && (r.threads[step.thread] == Remove(t, Some(i)) || r.threads[step.thread] == DeleteSet(i))
  }

  /** A thread publishes a stop command for the task. */
  function Publishes(t: Id): Kind
  {
    (r: Registry, step: Step) => step.Advance? && step.thread in r.threads
                                 && r.threads[step.thread].Publish? && r.threads[step.thread].task == t
  }

  function Delivers(t: Id): Kind
  {
    (r: Registry, step: Step) => step == Deliver(t)
  }

  /** The owner of the task receives a command to stop it while the task is in its table. */
  function FindsLive(t: Id): Kind
  {
    (r: Registry, step: Step) => step == Deliver(t) && t in r.live
  }

  function Nothing(): Kind
  {
    (r: Registry, step: Step) => false
  }

  /** A task is in the hash exactly when it was saved after the last removal by its cleanups and stops. */
  lemma HashedIffSavedLast(steps: seq<Step>, t: Id)
    requires IsRun(EMPTY, steps)
    ensures t in After(EMPTY, steps).hash <==> OnLast(EMPTY, steps, Saves(t), Removes(t))
  {
    HoldsIff(EMPTY, steps, (r: Registry) => t in r.hash, Saves(t), Removes(t));
  }

  /** It is in an item's set exactly when it was saved for the item after the last removal from the set or of the set. */
  lemma ListedIffSavedLast(steps: seq<Step>, t: Id, i: Id)
    requires IsRun(EMPTY, steps)
    ensures t in SetOf(After(EMPTY, steps), i) <==> OnLast(EMPTY, steps, SavesUnder(t, i), Unlists(t, i))
  {
    HoldsIff(EMPTY, steps, (r: Registry) => t in SetOf(r, i), SavesUnder(t, i), Unlists(t, i));
  }

  /** It is in its owner's table exactly when it was created and not dropped since. */
  lemma LiveIff(steps: seq<Step>, t: Id)
    requires IsRun(EMPTY, steps)
    ensures t in After(EMPTY, steps).live <==> OnLast(EMPTY, steps, Creates(t), Pops(t))
  {
    HoldsIff(EMPTY, steps, (r: Registry) => t in r.live, Creates(t), Pops(t));
  }

  /** A command to stop it is pending exactly when one was published after the last delivery. */
  lemma CommandedIff(steps: seq<Step>, t: Id)
    requires IsRun(EMPTY, steps)
    ensures t in After(EMPTY, steps).commands <==> OnLast(EMPTY, steps, Publishes(t), Delivers(t))
  {
    HoldsIff(EMPTY, steps, (r: Registry) => t in r.commands, Publishes(t), Delivers(t));
  }

  /** It is cancelled exactly when a command to stop this very task was delivered while it was live. */
  lemma CancelledIff(steps: seq<Step>, t: Id)
    requires IsRun(EMPTY, steps)
    ensures t in After(EMPTY, steps).cancelled <==> Happens(EMPTY, steps, FindsLive(t))
  {
    HoldsIff(EMPTY, steps, (r: Registry) => t in r.cancelled, FindsLive(t), Nothing());
    NothingHappens(EMPTY, steps, FindsLive(t));
  }

  lemma {:induction false} NothingHappens(r: Registry, steps: seq<Step>, on: Kind)
    requires IsRun(r, steps)
    ensures !Happens(r, steps, Nothing())
    ensures OnLast(r, steps, on, Nothing()) <==> Happens(r, steps, on)
    decreases |steps|
  {
    if steps != [] {
      NothingHappens(Take(r, steps[0]), steps[1..], on);
    }
  }

  /** A task that ends, is cleaned up and leaves its table before its process saves it. */
  lemma LateSaveStays()
    ensures exists steps :: IsRun(EMPTY, steps)
                            && var r := After(EMPTY, steps);
                               r.threads == map[] && r.live == {} && "a" in r.hash && HasActiveTasks(r, "c")
  {
    var r1 := Take(EMPTY, Create("a", Some("c")));
    var r2 := Take(r1, Finish(0, "a"));
    var r3 := Take(r2, Advance(0));
    assert r3.threads[0] == CountSet("c") && SetOf(r3, "c") == {};
    var r4 := Take(r3, Advance(0));
    var r5 := Take(r4, Advance(0));
    var r6 := Take(r5, Pop("a"));
    var r7 := Take(r6, Save("a"));
    assert r7.threads == map[] && r7.live == {} && "a" in SetOf(r7, "c");
    RunCons(r6, Save("a"), []);
    RunCons(r5, Pop("a"), [Save("a")] + []);
    LateSaveBegins(r1, r2, r3, r4, r5, [Pop("a")] + ([Save("a")] + []));
  }

  lemma LateSaveBegins(r1: Registry, r2: Registry, r3: Registry, r4: Registry, r5: Registry, rest: seq<Step>)
    requires r1 == Take(EMPTY, Create("a", Some("c"))) && Enabled(r1, Finish(0, "a")) && r2 == Take(r1, Finish(0, "a"))
    requires Enabled(r2, Advance(0)) && r3 == Take(r2, Advance(0)) && Enabled(r3, Advance(0)) && r4 == Take(r3, Advance(0))
    requires Enabled(r4, Advance(0)) && r5 == Take(r4, Advance(0)) && IsRun(r5, rest)
    ensures exists steps :: IsRun(EMPTY, steps) && After(EMPTY, steps) == After(r5, rest)
  {
    var s4 := [Advance(0)] + rest;
    RunCons(r4, Advance(0), rest);
    RunCons(r3, Advance(0), s4);
    RunCons(r2, Advance(0), [Advance(0)] + s4);
    RunCons(r1, Finish(0, "a"), [Advance(0)] + ([Advance(0)] + s4));
    RunCons(EMPTY, Create("a", Some("c")), [Finish(0, "a")] + ([Advance(0)] + ([Advance(0)] + s4)));
    assert IsRun(EMPTY, [Create("a", Some("c"))] + ([Finish(0, "a")] + ([Advance(0)] + ([Advance(0)] + s4))));
  }

  lemma RunCons(r: Registry, step: Step, rest: seq<Step>)
    requires Enabled(r, step) && IsRun(Take(r, step), rest)
    ensures IsRun(r, [step] + rest) && After(r, [step] + rest) == After(Take(r, step), rest)
  {
  }

  /** Two tasks of one chat: the first was removed and its set found empty, the second is not saved yet. */
  const IN_WINDOW := Registry(map[], map["c" := {}], map["a" := Some("c"), "b" := Some("c")], {"a"}, {"a", "b"}, {}, {},
                              map[0 := DeleteSet("c")])

  const BOTH_CREATED := Registry(map[], map[], map["a" := Some("c"), "b" := Some("c")], {}, {"a", "b"}, {}, {}, map[])

  const FIRST_SAVED := Registry(map["a" := Some("c")], map["c" := {"a"}], map["a" := Some("c"), "b" := Some("c")],
                                {"a"}, {"a", "b"}, {}, {}, map[])

  lemma CreateBoth()
    ensures var a, b := Create("a", Some("c")), Create("b", Some("c"));
            Enabled(EMPTY, a) && Enabled(Take(EMPTY, a), b) && Take(Take(EMPTY, a), b) == BOTH_CREATED
  {
  }

  lemma SaveFirst()
    ensures Enabled(BOTH_CREATED, Save("a")) && Take(BOTH_CREATED, Save("a")) == FIRST_SAVED
  {
    assert SetOf(BOTH_CREATED, "c") + {"a"} == {"a"};
    assert BOTH_CREATED.saved + {"a"} == {"a"};
  }

  lemma CleanFirst() returns (r1: Registry, r2: Registry)
    ensures Enabled(FIRST_SAVED, Finish(0, "a")) && r1 == Take(FIRST_SAVED, Finish(0, "a"))
    ensures Enabled(r1, Advance(0)) && r2 == Take(r1, Advance(0))
    ensures Enabled(r2, Advance(0)) && Take(r2, Advance(0)) == IN_WINDOW
  {
    r1 := Take(FIRST_SAVED, Finish(0, "a"));
    r2 := Take(r1, Advance(0));
    assert SetOf(FIRST_SAVED, "c") - {"a"} == {};
    assert r2.sets == map["c" := {}];
  }

  lemma InWindowIsReached(rest: seq<Step>) returns (steps: seq<Step>)
    requires IsRun(IN_WINDOW, rest)
    ensures IsRun(EMPTY, steps) && After(EMPTY, steps) == After(IN_WINDOW, rest)
  {
    CreateBoth();
    SaveFirst();
    var r1, r2 := CleanFirst();
    steps := [Advance(0)] + rest;
    RunCons(r2, Advance(0), rest);
    RunCons(r1, Advance(0), steps);
    steps := [Advance(0)] + steps;
    RunCons(FIRST_SAVED, Finish(0, "a"), steps);
    steps := [Finish(0, "a")] + steps;
    RunCons(BOTH_CREATED, Save("a"), steps);
    steps := [Save("a")] + steps;
    RunCons(Take(EMPTY, Create("a", Some("c"))), Create("b", Some("c")), steps);
    steps := [Create("b", Some("c"))] + steps;
    RunCons(EMPTY, Create("a", Some("c")), steps);
    steps := [Create("a", Some("c"))] + steps;
  }

  /** A save in the window is lost: the hash holds the new task, but its chat looks idle. */
  lemma SaveInWindowIsLost()
    ensures exists steps :: IsRun(EMPTY, steps)
                            && (var r := After(EMPTY, steps); "b" in r.hash && r.hash["b"] == Some("c") && !HasActiveTasks(r, "c"))
  {
    var saved := Take(IN_WINDOW, Save("b"));
    var lost := Take(saved, Advance(0));
    assert lost.sets == map[];
    RunCons(saved, Advance(0), []);
    RunCons(IN_WINDOW, Save("b"), [Advance(0)] + []);
    var steps := InWindowIsReached([Save("b")] + ([Advance(0)] + []));
    assert After(EMPTY, steps) == lost;
  }
}
