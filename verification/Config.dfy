/**
 Persistent configuration: values at nested paths of one JSON document, and the
 deferred tasks that write them there and commit the document.
 */
module Config {
  import opened Prelude

  datatype Json = Null | Bool(b: bool) | Number(n: int) | Text(s: string) | List(items: seq<Json>)
                | Obj(members: map<string, Json>)

  /** A dotted path, split at its dots. */
  type Path = p: seq<string> | p != [] witness [""]

  /** What a read gives: a value, `Null` also for a missing one, or a type error. */
  datatype Reply = Value(json: Json) | Raised

  predicate IsSubstring(t: string, s: string)
  {
    exists i | 0 <= i <= |s| :: t <= s[i..]
  }

  /** A key may be looked for in an object, a list or a text, and taken only from an object. */
  function Get(j: Json, path: seq<string>): Reply
  {
    if path == [] then Value(j)
    else match j
      case Obj(members) => if path[0] in members then Get(members[path[0]], path[1..]) else Value(Null)
      case Text(s) => if IsSubstring(path[0], s) then Raised else Value(Null)
      case List(items) => if Text(path[0]) in items then Raised else Value(Null)
      case _ => Raised
  }

  /** The document with the value at the path, or none when something on the way is no object. */
  function Put(j: Json, path: seq<string>, v: Json): Option<Json>
    decreases |path|
  {
    if path == [] then Some(v)
    else if !j.Obj? then None
    else
      match Put(Child(j, path[0]), path[1..], v)
      case None => None
      case Some(sub) => Some(Obj(j.members[path[0] := sub]))
  }

  /** The member under a key; a missing one is created empty. */
  function Child(j: Json, key: string): Json
    requires j.Obj?
  {
    if key in j.members then j.members[key] else Obj(map[])
  }

  // -------------------------------------------------------- nested-path laws

  /** What a document stores at a path, going through objects only. */
  function Find(j: Json, path: seq<string>): Option<Json>
  {
    if path == [] then Some(j)
    else if j.Obj? && path[0] in j.members then Find(j.members[path[0]], path[1..])
    else None
  }

  /** Whatever is stored at a proper prefix of the path is an object. */
  ghost predicate Writable(j: Json, path: seq<string>)
  {
    forall i | 0 <= i < |path| :: var f := Find(j, path[..i]); f.Some? ==> f.value.Obj?
  }

  ghost predicate Unrelated(p: seq<string>, q: seq<string>)
  {
    !(p <= q) && !(q <= p)
  }

  lemma FindStep(j: Json, path: seq<string>, i: nat)
    requires j.Obj? && 0 < i <= |path|
    ensures Find(j, path[..i]) == if path[0] in j.members then Find(j.members[path[0]], path[1..][..i - 1]) else None
  {
    assert path[..i][1..] == path[1..][..i - 1];
  }

  lemma WritableStep(j: Json, path: seq<string>)
    requires path != [] && j.Obj?
    ensures Writable(j, path) <==> Writable(Child(j, path[0]), path[1..])
  {
    if path[0] in j.members {
      var sub := j.members[path[0]];
      if Writable(j, path) {
        forall i | 0 <= i < |path[1..]| ensures var f := Find(sub, path[1..][..i]); f.Some? ==> f.value.Obj? {
          FindStep(j, path, i + 1);
        }
      }
      if Writable(sub, path[1..]) {
        forall i | 0 <= i < |path| ensures var f := Find(j, path[..i]); f.Some? ==> f.value.Obj? {
          if i > 0 {
            FindStep(j, path, i);
          }
        }
      }
    } else {
      forall i | 0 <= i < |path| ensures var f := Find(j, path[..i]); f.Some? ==> f.value.Obj? {
        if i > 0 {
          FindStep(j, path, i);
        }
      }
    }
  }

  /** Saving fails exactly when a proper prefix of the path holds something else than an object. */
  lemma {:induction false} PutSucceedsIff(j: Json, path: seq<string>, v: Json)
    ensures Put(j, path, v).Some? <==> Writable(j, path)
    decreases |path|
  {
    if path == [] {
    } else if j.Obj? {
      PutSucceedsIff(Child(j, path[0]), path[1..], v);
      WritableStep(j, path);
    } else {
      assert Find(j, path[..0]) == Some(j);
    }
  }

  /** Reading the saved path, or below it, reads the saved value. */
  lemma {:induction false} GetAfterPut(j: Json, path: seq<string>, rest: seq<string>, v: Json)
    requires Put(j, path, v).Some?
    ensures Get(Put(j, path, v).value, path + rest) == Get(v, rest)
    decreases |path|
  {
    if path == [] {
      assert path + rest == rest;
    } else {
      GetAfterPut(Child(j, path[0]), path[1..], rest, v);
      assert (path + rest)[1..] == path[1..] + rest;
    }
  }

  /** Every path that is neither a prefix nor an extension of the saved one reads as before. */
  lemma {:induction false} GetUnrelated(j: Json, path: seq<string>, v: Json, q: seq<string>)
    requires Put(j, path, v).Some? && Unrelated(path, q)
    ensures Get(Put(j, path, v).value, q) == Get(j, q)
    decreases |path|
  {
    if path[0] == q[0] {
      UnrelatedTails(path, q);
      GetUnrelated(Child(j, path[0]), path[1..], v, q[1..]);
    }
  }

  lemma UnrelatedTails(p: seq<string>, q: seq<string>)
    requires Unrelated(p, q) && p[0] == q[0]
    ensures Unrelated(p[1..], q[1..])
  {
  }

  /** What looking a key up in a stored value gives when the value is no object with that key. */
  predicate IsReply(x: Json, key: string, r: Reply)
  {
    match x
    case Obj(_) => r == Value(Null)
    case Text(s) => r == if exists i | 0 <= i <= |s| :: key <= s[i..] then Raised else Value(Null)
    case List(items) => r == if Text(key) in items then Raised else Value(Null)
    case _ => r == Raised
  }

  /**
   A read gives what is stored at the path.  Where the path leaves the document it gives null or
   raises, as the last value stored on it and the next key say, whatever keys come after.
   */
  lemma {:induction false} GetIsFind(j: Json, path: seq<string>, n: nat)
    requires n <= |path| && Find(j, path[..n]).Some?
    ensures n == |path| ==> Get(j, path) == Value(Find(j, path[..n]).value)
    ensures n < |path| && Find(j, path[..n + 1]).None? ==> IsReply(Find(j, path[..n]).value, path[n], Get(j, path))
    decreases |path|
  {
    if n > 0 {
      FindStep(j, path, n);
      if n < |path| {
        FindStep(j, path, n + 1);
      }
      GetIsFind(j.members[path[0]], path[1..], n - 1);
    } else if path != [] {
      if j.Obj? {
        FindStep(j, path, 1);
      }
    }
  }

  lemma PutUnfold(j: Json, path: seq<string>, v: Json)
    requires path != [] && j.Obj?
    ensures Put(j, path, v) == match Put(Child(j, path[0]), path[1..], v)
                               case None => None
                               case Some(sub) => Some(Obj(j.members[path[0] := sub]))
  {
  }

  lemma PutsCommuteAtOnce(j: Json, p: seq<string>, v: Json, q: seq<string>, w: Json)
    requires p != [] && q != [] && p[0] != q[0] && Put(j, p, v).Some? && Put(j, q, w).Some?
    ensures Put(Put(j, p, v).value, q, w) == Put(Put(j, q, w).value, p, v)
    ensures Put(Put(j, p, v).value, q, w).Some?
  {
    var a, b := Put(j, p, v).value, Put(j, q, w).value;
    var subP, subQ := Put(Child(j, p[0]), p[1..], v).value, Put(Child(j, q[0]), q[1..], w).value;
    assert Child(a, q[0]) == Child(j, q[0]) && Child(b, p[0]) == Child(j, p[0]);
    PutUnfold(a, q, w);
    PutUnfold(b, p, v);
    assert j.members[p[0] := subP][q[0] := subQ] == j.members[q[0] := subQ][p[0] := subP];
  }

  lemma PutsCommuteBelow(j: Json, key: string, p: seq<string>, v: Json, q: seq<string>, w: Json)
    requires j.Obj? && Put(Child(j, key), p, v).Some? && Put(Child(j, key), q, w).Some?
    requires Put(Put(Child(j, key), p, v).value, q, w).Some?
    requires Put(Put(Child(j, key), p, v).value, q, w) == Put(Put(Child(j, key), q, w).value, p, v)
    ensures Put(j, [key] + p, v).Some? && Put(j, [key] + q, w).Some?
    ensures Put(Put(j, [key] + p, v).value, [key] + q, w) == Put(Put(j, [key] + q, w).value, [key] + p, v)
    ensures Put(Put(j, [key] + p, v).value, [key] + q, w).Some?
  {
    var sub := Child(j, key);
    var subP, subQ, both := Put(sub, p, v).value, Put(sub, q, w).value, Put(Put(sub, p, v).value, q, w).value;
    assert ([key] + p)[1..] == p && ([key] + q)[1..] == q;
    PutUnfold(j, [key] + p, v);
    PutUnfold(j, [key] + q, w);
    PutUnfold(Obj(j.members[key := subP]), [key] + q, w);
    PutUnfold(Obj(j.members[key := subQ]), [key] + p, v);
    assert j.members[key := subP][key := both] == j.members[key := subQ][key := both];
  }

  /** Saves to unrelated paths give the same document in either order. */
  lemma {:induction false} PutsCommute(j: Json, p: seq<string>, v: Json, q: seq<string>, w: Json)
    requires Unrelated(p, q) && Put(j, p, v).Some? && Put(j, q, w).Some?
    ensures Put(Put(j, p, v).value, q, w) == Put(Put(j, q, w).value, p, v)
    ensures Put(Put(j, p, v).value, q, w).Some?
    decreases |p|
  {
    if p[0] == q[0] {
      UnrelatedTails(p, q);
      PutsCommute(Child(j, p[0]), p[1..], v, q[1..], w);
      PutsCommuteBelow(j, p[0], p[1..], v, q[1..], w);
      assert [p[0]] + p[1..] == p && [p[0]] + q[1..] == q;
    } else {
      PutsCommuteAtOnce(j, p, v, q, w);
    }
  }

  /** A later save to the same path replaces the earlier one. */
  lemma {:induction false} LastPutWins(j: Json, p: seq<string>, v: Json, w: Json)
    requires Put(j, p, v).Some?
    ensures Put(Put(j, p, v).value, p, w) == Put(j, p, w)
    decreases |p|
  {
    if p != [] {
      var sub := Child(j, p[0]);
      LastPutWins(sub, p[1..], v, w);
      PutUnfold(Put(j, p, v).value, p, w);
      if Put(sub, p[1..], w).Some? {
        var first, last := Put(sub, p[1..], v).value, Put(sub, p[1..], w).value;
        assert j.members[p[0] := first][p[0] := last] == j.members[p[0] := last];
      }
    }
  }

  lemma PutKeepsWritable(j: Json, p: seq<string>, v: Json, q: seq<string>)
    requires Put(j, p, v).Some? && Unrelated(p, q) && Writable(j, q)
    ensures Writable(Put(j, p, v).value, q)
  {
    PutSucceedsIff(j, q, Null);
    PutsCommute(j, p, v, q, Null);
    PutSucceedsIff(Put(j, p, v).value, q, Null);
  }

  lemma PutKeepsItselfWritable(j: Json, p: seq<string>, v: Json)
    requires Put(j, p, v).Some?
    ensures Writable(Put(j, p, v).value, p)
  {
    PutSucceedsIff(j, p, Null);
    PutSucceedsIff(j, p, v);
    LastPutWins(j, p, v, Null);
    PutSucceedsIff(Put(j, p, v).value, p, Null);
  }

  // -------------------------------------------------------- deferred persists

  type Key = string

  /** The path of each registered setting. */
  type Registry = map<Key, Path>

  /** A persist task before it writes into the document, and between that and its commit. */
  datatype Task = Waiting(key: Key) | Saving(key: Key)

  /** `data` is the document in memory and `db` the stored one. */
  datatype State = State(values: map<Key, Json>, tasks: map<nat, Task>, data: Json, db: Option<Json>)

  datatype Op = Assign(key: Key, value: Json, task: nat) | Write(task: nat) | Commit(task: nat)

  predicate Enabled(paths: Registry, s: State, op: Op)
  {
    match op
    case Assign(key, _, task) => key in paths && task !in s.tasks
    case Write(task) => task in s.tasks && s.tasks[task].Waiting? && s.tasks[task].key in paths && s.tasks[task].key in s.values
    case Commit(task) => task in s.tasks && s.tasks[task].Saving?
  }

  /** A task saves the value its setting has when it writes, and commits the document as it is then. */
  function After(paths: Registry, s: State, op: Op): State
    requires Enabled(paths, s, op)
  {
    match op
    case Assign(key, value, task) => s.(values := s.values[key := value], tasks := s.tasks[task := Waiting(key)])
    case Write(task) =>
      var key := s.tasks[task].key;
      (match Put(s.data, paths[key], s.values[key])
       case None => s.(tasks := s.tasks - {task})
       case Some(data) => s.(data := data, tasks := s.tasks[task := Saving(key)]))
    case Commit(task) => s.(db := Some(s.data), tasks := s.tasks - {task})
  }

  ghost predicate IsRun(paths: Registry, states: seq<State>, ops: seq<Op>)
  {
    && |states| == |ops| + 1
    && forall i | 0 <= i < |ops| :: Enabled(paths, states[i], ops[i]) && states[i + 1] == After(paths, states[i], ops[i])
  }

  function LastAssigned(ops: seq<Op>): map<Key, Json>
  {
    if ops == [] then map[]
    else
      var earlier, op := LastAssigned(ops[..|ops| - 1]), ops[|ops| - 1];
      if op.Assign? then earlier[op.key := op.value] else earlier
  }

  /** A run between two states without pending tasks, from a document in which every setting can be saved. */
  ghost predicate IsQuietRun(paths: Registry, states: seq<State>, ops: seq<Op>)
  {
    && IsRun(paths, states, ops)
    && states[0].tasks == map[] && AllWritable(paths, states[0].data)
    && states[|ops|].tasks == map[]
  }

  /** No setting is stored at, above or below the path of another. */
  ghost predicate PrefixFree(paths: Registry)
  {
    forall j, k | j in paths && k in paths && j != k :: Unrelated(paths[j], paths[k])
  }

  ghost predicate AllWritable(paths: Registry, data: Json)
  {
    forall k | k in paths :: Writable(data, paths[k])
  }

  ghost predicate Persisted(paths: Registry, last: map<Key, Json>, db: Option<Json>)
  {
    forall k | k in last :: k in paths && db.Some? && Get(db.value, paths[k]) == Value(last[k])
  }

  ghost predicate IsWaiting(s: State, key: Key)
  {
    exists t :: t in s.tasks && s.tasks[t] == Waiting(key)
  }

  ghost predicate SomeSaving(s: State)
  {
    exists t :: t in s.tasks && s.tasks[t].Saving?
  }

  /** A written setting waits for its task, or is in the document; and this is stored or about to be. */
  ghost predicate OnItsWay(path: Path, s: State, key: Key, value: Json)
  {
    || IsWaiting(s, key)
    || (Get(s.data, path) == Value(value) && (SomeSaving(s) || s.db == Some(s.data)))
  }

  ghost predicate Inv(paths: Registry, s: State, last: map<Key, Json>)
  {
    && (forall t | t in s.tasks :: s.tasks[t].key in last)
    && (forall k | k in last :: k in paths && k in s.values && s.values[k] == last[k] && OnItsWay(paths[k], s, k, last[k]))
    && AllWritable(paths, s.data)
  }

  lemma WriteKeepsWritable(paths: Registry, data: Json, key: Key, value: Json)
    requires PrefixFree(paths) && AllWritable(paths, data) && key in paths
    ensures Put(data, paths[key], value).Some?
    ensures AllWritable(paths, Put(data, paths[key], value).value)
  {
    PutSucceedsIff(data, paths[key], value);
    forall k | k in paths ensures Writable(Put(data, paths[key], value).value, paths[k]) {
      if k == key {
        PutKeepsItselfWritable(data, paths[k], value);
      } else {
        PutKeepsWritable(data, paths[key], value, paths[k]);
      }
    }
  }

  lemma WriteKeepsOnItsWay(paths: Registry, s: State, task: nat, k: Key, value: Json)
    requires PrefixFree(paths) && AllWritable(paths, s.data) && Enabled(paths, s, Write(task)) && k in paths
    requires k in s.values && s.values[k] == value && OnItsWay(paths[k], s, k, value)
    ensures OnItsWay(paths[k], After(paths, s, Write(task)), k, value)
  {
    var key, s' := s.tasks[task].key, After(paths, s, Write(task));
    WriteKeepsWritable(paths, s.data, key, s.values[key]);
    assert task in s'.tasks && s'.tasks[task].Saving?;
    if k == key {
      GetAfterPut(s.data, paths[k], [], value);
      assert paths[k] + [] == paths[k];
    } else if IsWaiting(s, k) {
      var t :| t in s.tasks && s.tasks[t] == Waiting(k);
      assert t in s'.tasks && s'.tasks[t] == Waiting(k);
    } else {
      GetUnrelated(s.data, paths[key], s.values[key], paths[k]);
    }
  }

  lemma OtherOpKeepsOnItsWay(paths: Registry, s: State, op: Op, k: Key, value: Json)
    requires Enabled(paths, s, op) && !op.Write? && k in paths && OnItsWay(paths[k], s, k, value)
    ensures OnItsWay(paths[k], After(paths, s, op), k, value)
  {
    var s' := After(paths, s, op);
    if IsWaiting(s, k) {
      var t :| t in s.tasks && s.tasks[t] == Waiting(k);
      assert t in s'.tasks && s'.tasks[t] == Waiting(k);
    } else if op.Assign? && SomeSaving(s) {
      var t :| t in s.tasks && s.tasks[t].Saving?;
      assert t in s'.tasks && s'.tasks[t].Saving?;
    }
  }

  lemma OpKeepsOnItsWay(paths: Registry, s: State, op: Op, k: Key, value: Json)
    requires PrefixFree(paths) && AllWritable(paths, s.data) && Enabled(paths, s, op)
    requires k in paths && k in s.values && s.values[k] == value && OnItsWay(paths[k], s, k, value)
    ensures OnItsWay(paths[k], After(paths, s, op), k, value)
  {
    if op.Write? {
      WriteKeepsOnItsWay(paths, s, op.task, k, value);
    } else {
      OtherOpKeepsOnItsWay(paths, s, op, k, value);
    }
  }

  lemma AssignKeepsInv(paths: Registry, s: State, op: Op, last: map<Key, Json>)
    requires Enabled(paths, s, op) && op.Assign? && Inv(paths, s, last)
    ensures Inv(paths, After(paths, s, op), last[op.key := op.value])
  {
    var s' := After(paths, s, op);
    assert s'.tasks[op.task] == Waiting(op.key);
    forall k | k in last && k != op.key ensures OnItsWay(paths[k], s', k, last[k]) {
      OtherOpKeepsOnItsWay(paths, s, op, k, last[k]);
    }
  }

  lemma OpKeepsInv(paths: Registry, s: State, op: Op, last: map<Key, Json>)
    requires PrefixFree(paths) && Enabled(paths, s, op) && Inv(paths, s, last)
    ensures Inv(paths, After(paths, s, op), if op.Assign? then last[op.key := op.value] else last)
  {
    if op.Assign? {
      AssignKeepsInv(paths, s, op, last);
    } else {
      forall k | k in last ensures OnItsWay(paths[k], After(paths, s, op), k, last[k]) {
        OpKeepsOnItsWay(paths, s, op, k, last[k]);
      }
      if op.Write? {
        WriteKeepsWritable(paths, s.data, s.tasks[op.task].key, s.values[s.tasks[op.task].key]);
      }
    }
  }

  lemma {:induction false} RunsKeepInv(paths: Registry, states: seq<State>, ops: seq<Op>, n: nat)
    requires PrefixFree(paths) && IsRun(paths, states, ops) && n <= |ops|
    requires states[0].tasks == map[] && AllWritable(paths, states[0].data)
    ensures Inv(paths, states[n], LastAssigned(ops[..n]))
    decreases n
  {
    if n > 0 {
      RunsKeepInv(paths, states, ops, n - 1);
      OpKeepsInv(paths, states[n - 1], ops[n - 1], LastAssigned(ops[..n - 1]));
      assert ops[..n][..n - 1] == ops[..n - 1];
    }
  }

  /**
   When no path is a prefix of another, then whatever the order in which the pending
   tasks write and commit, the database ends with the last value of each written setting.
   */
  lemma EveryOrderPersists(paths: Registry, states: seq<State>, ops: seq<Op>)
    requires PrefixFree(paths) && IsQuietRun(paths, states, ops)
    ensures Persisted(paths, LastAssigned(ops), states[|ops|].db)
    ensures LastAssigned(ops) != map[] ==> states[|ops|].db == Some(states[|ops|].data)
  {
    RunsKeepInv(paths, states, ops, |ops|);
    assert ops[..|ops|] == ops;
    if LastAssigned(ops) != map[] {
      var k :| k in LastAssigned(ops);
      assert OnItsWay(paths[k], states[|ops|], k, LastAssigned(ops)[k]);
    }
  }

  lemma OpTouchesItsPathOnly(paths: Registry, s: State, op: Op, q: seq<string>)
    requires Enabled(paths, s, op)
    requires op.Write? ==> Unrelated(paths[s.tasks[op.task].key], q)
    ensures Get(After(paths, s, op).data, q) == Get(s.data, q)
  {
    if op.Write? {
      var key := s.tasks[op.task].key;
      if Put(s.data, paths[key], s.values[key]).Some? {
        GetUnrelated(s.data, paths[key], s.values[key], q);
      }
    }
  }

  lemma {:induction false} LastAssignedGrows(ops: seq<Op>, n: nat)
    requires n <= |ops|
    ensures LastAssigned(ops[..n]).Keys <= LastAssigned(ops).Keys
    decreases |ops|
  {
    if n == |ops| {
      assert ops[..n] == ops;
    } else {
      var init := ops[..|ops| - 1];
      LastAssignedGrows(init, n);
      assert init[..n] == ops[..n];
    }
  }

  /** The document as it was at the last commit of the run. */
  function LastCommitted(states: seq<State>, ops: seq<Op>, n: nat): Option<Json>
    requires n <= |ops| && |ops| < |states|
  {
    if n == 0 then states[0].db
    else if ops[n - 1].Commit? then Some(states[n - 1].data)
    else LastCommitted(states, ops, n - 1)
  }

  /** Whatever is written meanwhile, the database holds the document of the last commit. */
  lemma {:induction false} StoredIsLastCommitted(paths: Registry, states: seq<State>, ops: seq<Op>, n: nat)
    requires IsRun(paths, states, ops) && n <= |ops|
    ensures states[n].db == LastCommitted(states, ops, n)
    decreases n
  {
    if n > 0 {
      StoredIsLastCommitted(paths, states, ops, n - 1);
    }
  }

  /** Nothing is changed outside the paths of the written settings. */
  lemma {:induction false} OtherSettingsAreKept(paths: Registry, states: seq<State>, ops: seq<Op>, q: seq<string>, n: nat)
    requires PrefixFree(paths) && IsRun(paths, states, ops) && n <= |ops|
    requires states[0].tasks == map[] && AllWritable(paths, states[0].data)
    requires forall k | k in LastAssigned(ops) && k in paths :: Unrelated(paths[k], q)
    ensures Get(states[n].data, q) == Get(states[0].data, q)
    decreases n
  {
    if n > 0 {
      OtherSettingsAreKept(paths, states, ops, q, n - 1);
      RunsKeepInv(paths, states, ops, n - 1);
      LastAssignedGrows(ops, n - 1);
      OpTouchesItsPathOnly(paths, states[n - 1], ops[n - 1], q);
    }
  }

  // -------------------------------------------------------------- the class

  class AppConfig {
    const paths: Registry
    var values: map<Key, Json>
    var tasks: map<nat, Task>
    var data: Json
    var db: Option<Json>
    var nextTask: nat

    ghost predicate Valid()
      reads this
    {
      forall t | t in tasks :: t < nextTask
    }

    ghost function Value(): State
      reads this
    {
      State(values, tasks, data, db)
    }

    constructor (paths: Registry, values: map<Key, Json>, data: Json, db: Option<Json>)
      ensures Valid() && this.paths == paths && Value() == State(values, map[], data, db)
    {
      this.paths, this.values, this.data, this.db := paths, values, data, db;
      tasks, nextTask := map[], 0;
    }

    method GetConfigValue(path: Path) returns (r: Reply)
      ensures r == Get(data, path)
    {
      var current := data;
      for i := 0 to |path|
        invariant Get(current, path[i..]) == Get(data, path)
      {
        match current
        case Obj(members) =>
          if path[i] !in members {
            return Reply.Value(Null);
          }
          current := members[path[i]];
        case Text(s) => return if IsSubstring(path[i], s) then Raised else Reply.Value(Null);
        case List(items) => return if Text(path[i]) in items then Raised else Reply.Value(Null);
        case _ => return Raised;
      }
      return Reply.Value(current);
    }

    /** Walk down to the object of the last key, through missing objects too; `above` keeps the objects passed. */
    method WalkDown(path: Path, ghost v: Json) returns (ok: bool, above: seq<map<string, Json>>, sub: Json)
      ensures ok ==> |above| == |path| - 1 && sub.Obj?
      ensures ok ==> Put(data, path, v) == PlugIn(above, path[..|path| - 1], Put(sub, path[|path| - 1..], v))
      ensures !ok ==> Put(data, path, v).None?
    {
      above, sub := [], data;
      for i := 0 to |path| - 1
        invariant |above| == i
        invariant Put(data, path, v) == PlugIn(above, path[..i], Put(sub, path[i..], v))
      {
        if !sub.Obj? {
          return false, above, sub;
        }
        PlugDeeper(above, path[..i], sub, path[i..], v);
        assert path[..i + 1] == path[..i] + [path[i]];
        above := above + [sub.members];
        sub := Child(sub, path[i]);
      }
      ok := sub.Obj?;
    }

    /** Put each object back into the one above it. */
    method PutBack(above: seq<map<string, Json>>, path: seq<string>, v: Json) returns (r: Json)
      requires |above| == |path|
      ensures r == Plug(above, path, v)
    {
      r := v;
      assert above[..|path|] == above && path[..|path|] == path;
      for i := |path| downto 0
        invariant Plug(above[..i], path[..i], r) == Plug(above, path, v)
      {
        PlugLast(above[..i], path[..i], above[i], path[i], r);
        assert above[..i + 1] == above[..i] + [above[i]] && path[..i + 1] == path[..i] + [path[i]];
        r := Obj(above[i][path[i] := r]);
      }
    }

    /** Set the value at the path, creating missing objects on the way. */
    method WriteValue(path: Path, v: Json) returns (ok: bool)
      modifies this`data
      ensures Put(old(data), path, v) == if ok then Some(data) else None
      ensures !ok ==> data == old(data)
    {
      var above, sub;
      ok, above, sub := WalkDown(path, v);
      if ok {
        var n := |path| - 1;
        assert path[n..][1..] == [];
        sub := Obj(sub.members[path[n] := v]);
        data := PutBack(above, path[..n], sub);
      }
    }

    /** Outside an event loop the value is saved at once. */
    method Save(key: Key) returns (ok: bool)
      requires key in paths && key in values
      modifies this`data, this`db
      ensures ok <==> Writable(old(data), paths[key])
      ensures ok ==> Put(old(data), paths[key], values[key]) == Some(data) && db == Some(data)
      ensures !ok ==> data == old(data) && db == old(db)
    {
      PutSucceedsIff(data, paths[key], values[key]);
      ok := WriteValue(paths[key], values[key]);
      if ok {
        db := Some(data);
      }
    }

    /** Inside an event loop the save is left to a task. */
    method SetAttr(key: Key, value: Json) returns (ghost op: Op)
      requires Valid() && key in paths
      modifies this
      ensures Valid() && op.Assign? && op.key == key && op.value == value
      ensures Enabled(paths, old(Value()), op) && Value() == After(paths, old(Value()), op)
    {
      op := Assign(key, value, nextTask);
      values := values[key := value];
      tasks := tasks[nextTask := Waiting(key)];
      nextTask := nextTask + 1;
    }

    method StartPersist(task: nat)
      requires Valid() && Enabled(paths, Value(), Write(task))
      modifies this
      ensures Valid() && Value() == After(paths, old(Value()), Write(task))
    {
      var key := tasks[task].key;
      var ok := WriteValue(paths[key], values[key]);
      tasks := if ok then tasks[task := Saving(key)] else tasks - {task};
    }

    method FinishPersist(task: nat)
      requires Valid() && Enabled(paths, Value(), Commit(task))
      modifies this
      ensures Valid() && Value() == After(paths, old(Value()), Commit(task))
    {
      db := Some(data);
      tasks := tasks - {task};
    }
  }

  /** The objects above, outermost first, with a changed member put back into each. */
  function Plug(above: seq<map<string, Json>>, path: seq<string>, sub: Json): Json
    requires |above| == |path|
  {
    if path == [] then sub else Obj(above[0][path[0] := Plug(above[1..], path[1..], sub)])
  }

  function PlugIn(above: seq<map<string, Json>>, path: seq<string>, sub: Option<Json>): Option<Json>
    requires |above| == |path|
  {
    if sub.Some? then Some(Plug(above, path, sub.value)) else None
  }

  lemma {:induction false} PlugLast(above: seq<map<string, Json>>, path: seq<string>, m: map<string, Json>, key: string, sub: Json)
    requires |above| == |path|
    ensures Plug(above + [m], path + [key], sub) == Plug(above, path, Obj(m[key := sub]))
    decreases |path|
  {
    if path == [] {
      assert Plug([], [], sub) == sub;
      assert (above + [m])[1..] == [] && (path + [key])[1..] == [];
    } else {
      PlugLast(above[1..], path[1..], m, key, sub);
      assert (above + [m])[1..] == above[1..] + [m] && (path + [key])[1..] == path[1..] + [key];
    }
  }

  lemma PlugDeeper(above: seq<map<string, Json>>, path: seq<string>, sub: Json, rest: seq<string>, v: Json)
    requires |above| == |path| && rest != [] && sub.Obj?
    ensures PlugIn(above, path, Put(sub, rest, v))
            == PlugIn(above + [sub.members], path + [rest[0]], Put(Child(sub, rest[0]), rest[1..], v))
  {
    PutUnfold(sub, rest, v);
    var below := Put(Child(sub, rest[0]), rest[1..], v);
    if below.Some? {
      PlugLast(above, path, sub.members, rest[0], below.value);
    }
  }

  // ------------------------------------------------------- clashing paths

  lemma PrefixIsWritable(j: Json, p: seq<string>, q: seq<string>)
    requires p <= q && Writable(j, q)
    ensures Writable(j, p)
  {
    forall i | 0 <= i < |p| ensures var f := Find(j, p[..i]); f.Some? ==> f.value.Obj? {
      assert p[..i] == q[..i];
    }
  }

  const ONE := Number(1)
  const TWO := Number(2)

  lemma UpperOverwritesLower(p: seq<string>, q: seq<string>) returns (d1: Json, d2: Json)
    requires p <= q
    ensures Put(Obj(map[]), q, TWO) == Some(d1) && Put(d1, p, ONE) == Some(d2) && Get(d2, q) != Value(TWO)
  {
    EmptyIsWritable(q);
    PutSucceedsIff(Obj(map[]), q, TWO);
    d1 := Put(Obj(map[]), q, TWO).value;
    PutKeepsItselfWritable(Obj(map[]), q, TWO);
    PrefixIsWritable(d1, p, q);
    PutSucceedsIff(d1, p, ONE);
    d2 := Put(d1, p, ONE).value;
    GetAfterPut(d1, p, q[|p|..], ONE);
    assert p + q[|p|..] == q;
  }

  /** The lower setting writes first, then the upper one writes over it. */
  lemma ClashingPathsLoseAValue(paths: Registry, upper: Key, lower: Key) returns (states: seq<State>, ops: seq<Op>)
    requires upper in paths && lower in paths && upper != lower && paths[upper] <= paths[lower]
    ensures IsRun(paths, states, ops) && states[0] == State(map[], map[], Obj(map[]), None)
    ensures states[|ops|].tasks == map[]
    ensures !Persisted(paths, LastAssigned(ops), states[|ops|].db)
  {
    var d1, d2 := UpperOverwritesLower(paths[upper], paths[lower]);
    states, ops := ClashingRun(paths, upper, lower, d1, d2);
    LastOfClash(ops, upper, lower);
  }

  lemma BothWrite(paths: Registry, upper: Key, lower: Key, d1: Json, d2: Json) returns (s1: State, s2: State, s3: State, s4: State)
    requires upper in paths && lower in paths && upper != lower
    requires Put(Obj(map[]), paths[lower], TWO) == Some(d1) && Put(d1, paths[upper], ONE) == Some(d2)
    ensures var s0 := State(map[], map[], Obj(map[]), None);
            && Enabled(paths, s0, Assign(upper, ONE, 0)) && s1 == After(paths, s0, Assign(upper, ONE, 0))
            && Enabled(paths, s1, Assign(lower, TWO, 1)) && s2 == After(paths, s1, Assign(lower, TWO, 1))
            && Enabled(paths, s2, Write(1)) && s3 == After(paths, s2, Write(1))
            && Enabled(paths, s3, Write(0)) && s4 == After(paths, s3, Write(0))
    ensures s4.data == d2 && s4.tasks == map[0 := Saving(upper), 1 := Saving(lower)]
  {
    s1 := After(paths, State(map[], map[], Obj(map[]), None), Assign(upper, ONE, 0));
    s2 := After(paths, s1, Assign(lower, TWO, 1));
    s3 := After(paths, s2, Write(1));
    s4 := After(paths, s3, Write(0));
  }

  lemma ClashingRun(paths: Registry, upper: Key, lower: Key, d1: Json, d2: Json) returns (states: seq<State>, ops: seq<Op>)
    requires upper in paths && lower in paths && upper != lower
    requires Put(Obj(map[]), paths[lower], TWO) == Some(d1) && Put(d1, paths[upper], ONE) == Some(d2)
    ensures ops == [Assign(upper, ONE, 0), Assign(lower, TWO, 1), Write(1), Write(0), Commit(0), Commit(1)]
    ensures IsRun(paths, states, ops) && states[0] == State(map[], map[], Obj(map[]), None)
    ensures states[|ops|].tasks == map[] && states[|ops|].db == Some(d2)
  {
    ops := [Assign(upper, ONE, 0), Assign(lower, TWO, 1), Write(1), Write(0), Commit(0), Commit(1)];
    var s1, s2, s3, s4 := BothWrite(paths, upper, lower, d1, d2);
    var s5 := After(paths, s4, Commit(0));
    var s6 := After(paths, s5, Commit(1));
    assert s6.tasks.Keys == {};
    states := [State(map[], map[], Obj(map[]), None), s1, s2, s3, s4, s5, s6];
  }

  lemma EmptyIsWritable(q: seq<string>)
    ensures Writable(Obj(map[]), q)
  {
  }

  lemma LastOfClash(ops: seq<Op>, upper: Key, lower: Key)
    requires upper != lower
    requires ops == [Assign(upper, ONE, 0), Assign(lower, TWO, 1), Write(1), Write(0), Commit(0), Commit(1)]
    ensures lower in LastAssigned(ops) && LastAssigned(ops)[lower] == TWO
  {
    LastAssignedTail(ops, 2);
    assert ops[..2][..1] == ops[..1];
  }

  lemma {:induction false} LastAssignedTail(ops: seq<Op>, n: nat)
    requires n <= |ops| && forall i | n <= i < |ops| :: !ops[i].Assign?
    ensures LastAssigned(ops) == LastAssigned(ops[..n])
    decreases |ops|
  {
    if n == |ops| {
      assert ops[..n] == ops;
    } else {
      var init := ops[..|ops| - 1];
      LastAssignedTail(init, n);
      assert init[..n] == ops[..n];
    }
  }

  ghost predicate EveryRunPersists(paths: Registry)
  {
    forall states: seq<State>, ops | IsQuietRun(paths, states, ops) :: Persisted(paths, LastAssigned(ops), states[|ops|].db)
  }

  /** The order of the persist tasks never matters exactly when the registered paths are prefix-free. */
  lemma OrderNeverMattersIff(paths: Registry)
    ensures EveryRunPersists(paths) <==> PrefixFree(paths)
  {
    if PrefixFree(paths) {
      forall states: seq<State>, ops | IsQuietRun(paths, states, ops)
        ensures Persisted(paths, LastAssigned(ops), states[|ops|].db) {
        EveryOrderPersists(paths, states, ops);
      }
    } else {
      var j, k :| j in paths && k in paths && j != k && !Unrelated(paths[j], paths[k]);
      var upper, lower := if paths[j] <= paths[k] then j else k, if paths[j] <= paths[k] then k else j;
      var states, ops := ClashingPathsLoseAValue(paths, upper, lower);
      forall key | key in paths ensures Writable(states[0].data, paths[key]) {
        EmptyIsWritable(paths[key]);
      }
      assert IsQuietRun(paths, states, ops);
    }
  }

  // ----------------------------------------------------------- persists end

  function WaitingTasks(s: State): set<nat>
  {
    set t | t in s.tasks && s.tasks[t].Waiting?
  }

  /** Two steps for a task that has not written yet, one for another. */
  function Work(s: State): nat
  {
    |s.tasks.Keys| + |WaitingTasks(s)|
  }

  lemma StepDoesWork(paths: Registry, s: State, op: Op)
    requires Enabled(paths, s, op) && !op.Assign?
    ensures Work(After(paths, s, op)) < Work(s)
  {
    var s' := After(paths, s, op);
    assert WaitingTasks(s') == WaitingTasks(s) - {op.task};
    if op.Write? {
      assert op.task in WaitingTasks(s);
      assert s'.tasks.Keys == s.tasks.Keys || s'.tasks.Keys == s.tasks.Keys - {op.task};
    } else {
      assert WaitingTasks(s) - {op.task} == WaitingTasks(s);
      assert s'.tasks.Keys == s.tasks.Keys - {op.task};
    }
  }

  /** Without new assignments the pending tasks come to an end, and until then one can move. */
  lemma {:induction false} PersistingEnds(paths: Registry, states: seq<State>, ops: seq<Op>)
    requires IsRun(paths, states, ops) && forall i | 0 <= i < |ops| :: !ops[i].Assign?
    ensures |ops| + Work(states[|ops|]) <= Work(states[0])
    decreases |ops|
  {
    if ops != [] {
      var n := |ops| - 1;
      PersistingEnds(paths, states[..n + 1], ops[..n]);
      StepDoesWork(paths, states[n], ops[n]);
    }
  }

  lemma SomeTaskCanMove(paths: Registry, s: State, last: map<Key, Json>)
    requires Inv(paths, s, last) && s.tasks != map[]
    ensures exists op :: Enabled(paths, s, op) && !op.Assign?
  {
    var t :| t in s.tasks;
    assert Enabled(paths, s, if s.tasks[t].Waiting? then Write(t) else Commit(t));
  }
}
