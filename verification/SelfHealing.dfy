/**
 Reading a chat whose rows are incomplete: each read fills in one generation of
 missing parents from the blob, until the rows answer as the blob would.
 */
module SelfHealing {
  import opened Prelude
  import opened Forest
  import opened ChatMessages
  import opened Chats
  import opened ChatRuns

  function Reversed<T>(s: seq<T>): (r: seq<T>)
    ensures |r| == |s| && forall i | 0 <= i < |s| :: r[i] == s[|s| - 1 - i]
  {
    if s == [] then [] else Reversed(s[1..]) + [s[0]]
  }

  /** The messages from the root down to one message, in order. */
  function Thread(m: map<Id, Message>, id: Id): seq<Id>
  {
    Reversed(Walk(ParentsOf(m), id))
  }

  /** What is left to climb, from a message or from nowhere. */
  function Rest(p: Parents, from: Option<Id>, visited: set<Id>): seq<Id>
  {
    if from.Some? then Walk(p, from.value, visited) else []
  }

  lemma ClimbOne(m: map<Id, Message>, climb: seq<Id>, x: Id, visited: set<Id>)
    requires x in m && x !in visited
    ensures climb + Rest(ParentsOf(m), Some(x), visited)
            == (climb + [x]) + Rest(ParentsOf(m), ParentOf(m[x]), visited + {x})
  {
  }

  /** The thread that ends at a message, oldest first. */
  method MessageList(m: map<Id, Message>, messageId: Id) returns (thread: seq<Id>)
    ensures thread == Thread(m, messageId)
  {
    ghost var p := ParentsOf(m);
    if m == map[] || messageId !in m {
      return [];
    }
    var visited: set<Id> := {};
    var climb: seq<Id> := [];
    var current := Some(messageId);
    while current.Some? && current.value in m
      invariant climb + Rest(p, current, visited) == Walk(p, messageId)
      decreases m.Keys - visited
    {
      var x := current.value;
      if x in visited {
        break;
      }
      ClimbOne(m, climb, x, visited);
      climb := climb + [x];
      visited := visited + {x};
      current := ParentOf(m[x]);
    }
    assert Rest(p, current, visited) == [];
    assert climb == Walk(p, messageId);
    thread := Reversed(climb);
  }

  // ---------------------------------------------------- one read, by message id

  /** Messages a read writes to their rows. */
  function ToFill(view: map<Id, Row>, legacy: map<Id, Message>): set<Id>
  {
    set id | id in legacy && HasRole(legacy[id]) && (view == map[] || id in RowGaps(view))
  }

  function Healed(view: map<Id, Row>, legacy: map<Id, Message>, chatId: Id): map<Id, Row>
  {
    view + map id | id in ToFill(view, legacy) :: NewRow(chatId, legacy[id])
  }

  lemma FillsNoRow(view: map<Id, Row>, legacy: map<Id, Message>)
    ensures ToFill(view, legacy) !! view.Keys
  {
  }

  lemma ViewIs(rows: Rows, chatId: Id, v: map<Id, Row>)
    requires KeyedBy(rows, chatId)
    requires forall id :: RowOf(rows, chatId, id) == if id in v then Some(v[id]) else None
    ensures ViewOf(rows, chatId) == v
  {
  }

  lemma BackfillKeepsKeyed(rows: Rows, chatId: Id, part: map<Id, Message>)
    requires KeyedBy(rows, chatId)
    ensures KeyedBy(Backfill(rows, chatId, part), chatId)
  {
  }

  /** The rows found after a read are the healed rows. */
  lemma ReadHeals(db: Db, chatId: Id)
    requires WellKeyed(db) && chatId in db.chats
    ensures KeyedBy(db.rows, chatId)
    ensures var legacy := db.chats[chatId].messages;
            var rows := RowsAfterRead(db.rows, chatId, legacy);
            KeyedBy(rows, chatId) && ViewOf(rows, chatId) == Healed(ViewOf(db.rows, chatId), legacy, chatId)
  {
    var legacy := db.chats[chatId].messages;
    var view := ViewOf(db.rows, chatId);
    var part := ReadFromBlob(view, legacy);
    BackfillKeepsKeyed(db.rows, chatId, part);
    var healed := Healed(view, legacy, chatId);
    forall id ensures RowOf(Backfill(db.rows, chatId, part), chatId, id) == if id in healed then Some(healed[id]) else None {
      ReadHealsAt(db, chatId, part, id);
    }
    ViewIs(Backfill(db.rows, chatId, part), chatId, healed);
  }

  lemma ReadHealsAt(db: Db, chatId: Id, part: map<Id, Message>, id: Id)
    requires WellKeyed(db) && chatId in db.chats && KeyedBy(db.rows, chatId)
    requires var view := ViewOf(db.rows, chatId); var legacy := db.chats[chatId].messages;
             part == ReadFromBlob(view, legacy)
    ensures var view := ViewOf(db.rows, chatId); var legacy := db.chats[chatId].messages;
            RowOf(Backfill(db.rows, chatId, part), chatId, id)
            == if id in ToFill(view, legacy) then Some(NewRow(chatId, legacy[id]))
               else if id in view then Some(view[id]) else None
  {
    var view := ViewOf(db.rows, chatId);
    var legacy := db.chats[chatId].messages;
    var k := Key(chatId, id);
    StripKey(chatId, id);
    BackfillAt(db.rows, chatId, part, id);
    BackfillLookup(db.rows, chatId, part, k);
    FillsNoRow(view, legacy);
    if k in db.rows {
      KeyOwner(db, chatId, id);
    }
  }

  // ------------------------------------------------------------ convergence

  /** Legacy messages that could have a row and do not. */
  function Missing(view: map<Id, Row>, legacy: map<Id, Message>): set<Id>
  {
    set id | id in legacy && HasRole(legacy[id]) && id !in view
  }

  /** Each read either leaves the rows as they are, with nothing left to fill, or leaves fewer messages without a row. */
  lemma EachReadShrinksOrRests(view: map<Id, Row>, legacy: map<Id, Message>, chatId: Id)
    ensures Healed(view, legacy, chatId) == view <==> ToFill(view, legacy) == {}
    ensures Healed(view, legacy, chatId) != view
            ==> |Missing(Healed(view, legacy, chatId), legacy)| < |Missing(view, legacy)|
  {
    var fill := ToFill(view, legacy);
    var healed := Healed(view, legacy, chatId);
    FillsNoRow(view, legacy);
    if fill != {} {
      var id :| id in fill;
      assert id in healed && id !in view;
      assert Missing(healed, legacy) == Missing(view, legacy) - fill;
      SubsetSize(Missing(healed, legacy), Missing(view, legacy) - {id});
    } else {
      assert healed == view;
    }
  }

  function HealedAfter(view: map<Id, Row>, legacy: map<Id, Message>, chatId: Id, rounds: nat): map<Id, Row>
  {
    if rounds == 0 then view else Healed(HealedAfter(view, legacy, chatId, rounds - 1), legacy, chatId)
  }

  lemma {:induction false} HealedAfterIterates(view: map<Id, Row>, legacy: map<Id, Message>, chatId: Id, rounds: nat)
    ensures HealedAfter(view, legacy, chatId, rounds)
            == Iterate((v: map<Id, Row>) => Healed(v, legacy, chatId), view, rounds)
    decreases rounds
  {
    if rounds > 0 {
      HealedAfterIterates(view, legacy, chatId, rounds - 1);
    }
  }

  /** Zero once nothing is left to fill, and otherwise as far below as there are messages without a row. */
  function Progress(view: map<Id, Row>, legacy: map<Id, Message>): int
  {
    if ToFill(view, legacy) == {} then 0 else -|Missing(view, legacy)|
  }

  lemma ReadProgresses(view: map<Id, Row>, legacy: map<Id, Message>, chatId: Id)
    ensures var next := Progress(Healed(view, legacy, chatId), legacy); next >= 0 || next > Progress(view, legacy)
  {
    EachReadShrinksOrRests(view, legacy, chatId);
  }

  lemma NoProgressLeft(view: map<Id, Row>, legacy: map<Id, Message>)
    requires Progress(view, legacy) >= 0
    ensures ToFill(view, legacy) == {}
  {
  }

  /** As many reads as there are messages without a row are enough. */
  lemma HealingConverges(view: map<Id, Row>, legacy: map<Id, Message>, chatId: Id, rounds: nat)
    requires rounds >= |Missing(view, legacy)|
    ensures ToFill(HealedAfter(view, legacy, chatId, rounds), legacy) == {}
  {
    var heal := (v: map<Id, Row>) => Healed(v, legacy, chatId);
    forall v: map<Id, Row>
      ensures Progress(heal(v), legacy) >= 0 || Progress(heal(v), legacy) > Progress(v, legacy)
    {
      ReadProgresses(v, legacy, chatId);
    }
    HealedAfterIterates(view, legacy, chatId, rounds);
    IterateGains(heal, view, rounds, v => true, v => Progress(v, legacy), 0);
    NoProgressLeft(HealedAfter(view, legacy, chatId, rounds), legacy);
  }

  ghost predicate AllHaveRoles(legacy: map<Id, Message>)
  {
    forall id | id in legacy :: HasRole(legacy[id])
  }

  /** At rest, a parent the rows cannot resolve is one the blob does not have either. */
  lemma RestMeansResolved(view: map<Id, Row>, legacy: map<Id, Message>)
    requires AllHaveRoles(legacy)
    ensures ToFill(view, legacy) == {} <==> if view == map[] then legacy == map[] else RowGaps(view) !! legacy.Keys
  {
    assert ToFill(view, legacy) == if view == map[] then legacy.Keys else RowGaps(view) * legacy.Keys;
    assert legacy == map[] <==> legacy.Keys == {};
  }

  // ------------------------------------------------------------ ancestor walks

  /** A blob whose every message can be written to a row with its own parent. */
  ghost predicate Writable(legacy: map<Id, Message>)
  {
    AllHaveRoles(legacy) && forall id | id in legacy :: legacy[id].parent_id.Absent?
  }

  /** Every row comes from the blob and has the parent it has there. */
  ghost predicate DrawnFrom(view: map<Id, Row>, legacy: map<Id, Message>)
  {
    forall id | id in view :: id in legacy && Truthy(view[id].parent) == ParentOf(legacy[id])
  }

  lemma HealingKeepsParents(view: map<Id, Row>, legacy: map<Id, Message>, chatId: Id)
    requires DrawnFrom(view, legacy) && Writable(legacy)
    ensures DrawnFrom(Healed(view, legacy, chatId), legacy)
    ensures view.Keys <= Healed(view, legacy, chatId).Keys
  {
  }

  /** Before and after healing, a climb through the rows is the beginning of the climb through the blob. */
  lemma {:induction false} RowWalkIsPrefix(view: map<Id, Row>, legacy: map<Id, Message>, x: Id, visited: set<Id>)
    requires DrawnFrom(view, legacy)
    ensures Walk(RowParentsOf(view), x, visited) <= Walk(ParentsOf(legacy), x, visited)
    decreases view.Keys - visited
  {
    if x in view && x !in visited && ParentOf(legacy[x]).Some? {
      RowWalkIsPrefix(view, legacy, ParentOf(legacy[x]).value, visited + {x});
    }
  }

  /** At rest, climbing from any row meets exactly the ancestors the blob gives. */
  lemma {:induction false} HealedWalksAgree(view: map<Id, Row>, legacy: map<Id, Message>, x: Id, visited: set<Id>)
    requires DrawnFrom(view, legacy) && RowGaps(view) !! legacy.Keys && x in view
    ensures Walk(RowParentsOf(view), x, visited) == Walk(ParentsOf(legacy), x, visited)
    decreases view.Keys - visited
  {
    if x !in visited && ParentOf(legacy[x]).Some? {
      var p := ParentOf(legacy[x]).value;
      if p in view {
        HealedWalksAgree(view, legacy, p, visited + {x});
      } else {
        assert p in RowGaps(view);
      }
    }
  }

  /** A read completes the climb from a row or makes it longer. */
  lemma {:induction false} ReadExtendsWalk(view: map<Id, Row>, legacy: map<Id, Message>, chatId: Id, x: Id, visited: set<Id>)
    requires DrawnFrom(view, legacy) && Writable(legacy)
    requires x in view
    ensures var before := Walk(RowParentsOf(view), x, visited);
            var after := Walk(RowParentsOf(Healed(view, legacy, chatId)), x, visited);
            after == Walk(ParentsOf(legacy), x, visited) || |after| > |before|
    decreases view.Keys - visited
  {
    var healed := Healed(view, legacy, chatId);
    HealingKeepsParents(view, legacy, chatId);
    if x !in visited && ParentOf(legacy[x]).Some? {
      var p := ParentOf(legacy[x]).value;
      assert RowParentsOf(view)[x] == RowParentsOf(healed)[x] == ParentsOf(legacy)[x] == Some(p);
      if p in view {
        ReadExtendsWalk(view, legacy, chatId, p, visited + {x});
      } else {
        assert p in RowGaps(view);
        assert p in legacy ==> p in ToFill(view, legacy);
      }
    }
  }

  /** How far the rows let one climb from x. */
  ghost function RowClimb(view: map<Id, Row>, x: Id): nat
  {
    |Walk(RowParentsOf(view), x)|
  }

  /** x has a row, and every row is the blob's. */
  ghost predicate Climbable(view: map<Id, Row>, legacy: map<Id, Message>, x: Id)
  {
    DrawnFrom(view, legacy) && Writable(legacy) && x in view
  }

  lemma OneReadGains(view: map<Id, Row>, legacy: map<Id, Message>, chatId: Id, x: Id)
    requires Climbable(view, legacy, x)
    ensures var healed := Healed(view, legacy, chatId);
            && Climbable(healed, legacy, x)
            && (RowClimb(healed, x) >= |Walk(ParentsOf(legacy), x)| || RowClimb(healed, x) > RowClimb(view, x))
            && RowClimb(healed, x) >= RowClimb(view, x)
  {
    HealingKeepsParents(view, legacy, chatId);
    RowWalkIsPrefix(view, legacy, x, {});
    ReadExtendsWalk(view, legacy, chatId, x, {});
  }

  lemma ReadsFillClimb(view: map<Id, Row>, legacy: map<Id, Message>, chatId: Id, x: Id, rounds: nat, full: nat)
    requires Climbable(view, legacy, x)
    requires full == |Walk(ParentsOf(legacy), x)|
    ensures var after := HealedAfter(view, legacy, chatId, rounds);
            && Climbable(after, legacy, x)
            && (rounds > 0 ==> RowClimb(after, x) >= full || RowClimb(after, x) >= RowClimb(view, x) + rounds)
  {
    var heal := (v: map<Id, Row>) => Healed(v, legacy, chatId);
    var drawn := (v: map<Id, Row>) => Climbable(v, legacy, x);
    var climb := (v: map<Id, Row>) => RowClimb(v, x);
    forall v {:trigger heal(v)} | drawn(v) ensures drawn(heal(v)) && (climb(heal(v)) >= full || climb(heal(v)) > climb(v)) {
      OneReadGains(v, legacy, chatId, x);
    }
    HealedAfterIterates(view, legacy, chatId, rounds);
    IterateGains(heal, view, rounds, drawn, climb, full);
  }

  /** The climb is complete after as many reads as it has ancestors to find. */
  lemma WalkCompletes(view: map<Id, Row>, legacy: map<Id, Message>, chatId: Id, x: Id, rounds: nat)
    requires DrawnFrom(view, legacy) && Writable(legacy) && x in view
    requires |Walk(RowParentsOf(view), x)| + rounds >= |Walk(ParentsOf(legacy), x)|
    ensures Walk(RowParentsOf(HealedAfter(view, legacy, chatId, rounds)), x) == Walk(ParentsOf(legacy), x)
  {
    var after := HealedAfter(view, legacy, chatId, rounds);
    ReadsFillClimb(view, legacy, chatId, x, rounds, |Walk(ParentsOf(legacy), x)|);
    RowWalkIsPrefix(after, legacy, x, {});
    if rounds == 0 {
      assert after == view;
    }
  }

  /** What a read returns links messages as the rows do after it. */
  lemma ReadServesHealedRows(view: map<Id, Row>, legacy: map<Id, Message>, chatId: Id, m: map<Id, Message>)
    requires Writable(legacy) && ReadsAs(view, legacy, m)
    ensures ParentsOf(m) == RowParentsOf(Healed(view, legacy, chatId))
  {
    var part := ReadFromBlob(view, legacy);
    assert ToFill(view, legacy) == part.Keys;
    HealedParents(view, legacy, chatId, part);
    ReadsAsParents(view, legacy, m);
  }

  lemma HealedParents(view: map<Id, Row>, legacy: map<Id, Message>, chatId: Id, part: map<Id, Message>)
    requires Writable(legacy) && ToFill(view, legacy) == part.Keys && forall id | id in part :: part[id] == legacy[id]
    ensures RowParentsOf(Healed(view, legacy, chatId)) == RowParentsOf(view) + ParentsOf(part)
  {
    forall id | id in part ensures Truthy(NewRow(chatId, legacy[id]).parent) == ParentOf(part[id]) {
    }
  }

  // ---------------------------------------------------- reads of the store

  lemma BackfillOfNone(rows: Rows, chatId: Id, part: map<Id, Message>)
    requires forall id | id in part :: !HasRole(part[id])
    ensures Backfill(rows, chatId, part) == rows
  {
    assert RoleKeys(chatId, part) == {};
  }

  lemma ReadKeepsWellKeyed(db: Db, chatId: Id)
    requires WellKeyed(db) && chatId in db.chats && KeyedBy(db.rows, chatId)
    ensures WellKeyed(Db(db.chats, RowsAfterRead(db.rows, chatId, db.chats[chatId].messages)))
  {
    var part := ReadFromBlob(ViewOf(db.rows, chatId), db.chats[chatId].messages);
    var rows := Backfill(db.rows, chatId, part);
    forall k | k in rows ensures rows[k].chatId in db.chats && rows[k].chatId + "-" <= k {
      BackfillLookup(db.rows, chatId, part, k);
      if k in RoleKeys(chatId, part) {
        KeyInverse(chatId, part, k);
        if k in db.rows {
          KeyOwner(db, chatId, StripPrefix(chatId, k));
        }
      }
    }
  }

  /** The store after one read of a chat. */
  function Read(db: Db, chatId: Id): (r: Db)
    requires WellKeyed(db) && chatId in db.chats
    ensures WellKeyed(r) && r.chats == db.chats
  {
    ReadKeepsWellKeyed(db, chatId);
    Db(db.chats, RowsAfterRead(db.rows, chatId, db.chats[chatId].messages))
  }

  function ReadTimes(db: Db, chatId: Id, n: nat): (r: Db)
    requires WellKeyed(db) && chatId in db.chats
    ensures WellKeyed(r) && r.chats == db.chats
  {
    if n == 0 then db else Read(ReadTimes(db, chatId, n - 1), chatId)
  }

  /** The rows of a chat in a well-keyed store. */
  function View(db: Db, chatId: Id): map<Id, Row>
    requires WellKeyed(db)
  {
    ViewOf(db.rows, chatId)
  }

  lemma ReadHealsView(db: Db, chatId: Id, legacy: map<Id, Message>, before: map<Id, Row>, after: map<Id, Row>)
    requires WellKeyed(db) && chatId in db.chats && db.chats[chatId].messages == legacy
    requires View(db, chatId) == before && after == Healed(before, legacy, chatId)
    ensures View(Read(db, chatId), chatId) == after
  {
    ReadHeals(db, chatId);
  }

  lemma HealedOnceMore(view: map<Id, Row>, legacy: map<Id, Message>, chatId: Id, n: nat)
    ensures HealedAfter(view, legacy, chatId, n + 1) == Healed(HealedAfter(view, legacy, chatId, n), legacy, chatId)
  {
  }

  lemma OneMoreRead(db: Db, chatId: Id, view: map<Id, Row>, legacy: map<Id, Message>, n: nat)
    requires WellKeyed(db) && chatId in db.chats && db.chats[chatId].messages == legacy
    requires View(ReadTimes(db, chatId, n), chatId) == HealedAfter(view, legacy, chatId, n)
    ensures View(ReadTimes(db, chatId, n + 1), chatId) == HealedAfter(view, legacy, chatId, n + 1)
  {
    HealedOnceMore(view, legacy, chatId, n);
    ReadHealsView(ReadTimes(db, chatId, n), chatId, legacy,
                  HealedAfter(view, legacy, chatId, n), HealedAfter(view, legacy, chatId, n + 1));
  }

  /** The rows found after n reads of the store are the rows healed n times. */
  lemma ReadsHeal(db: Db, chatId: Id, view: map<Id, Row>, legacy: map<Id, Message>, n: nat)
    requires WellKeyed(db) && chatId in db.chats && View(db, chatId) == view && db.chats[chatId].messages == legacy
    ensures View(ReadTimes(db, chatId, n), chatId) == HealedAfter(view, legacy, chatId, n)
  {
    for k := 0 to n
      invariant View(ReadTimes(db, chatId, k), chatId) == HealedAfter(view, legacy, chatId, k)
    {
      OneMoreRead(db, chatId, view, legacy, k);
    }
  }

  lemma RestedTakesNothing(view: map<Id, Row>, legacy: map<Id, Message>)
    requires ToFill(view, legacy) == {}
    ensures forall id | id in ReadFromBlob(view, legacy) :: !HasRole(ReadFromBlob(view, legacy)[id])
  {
    forall id | id in ReadFromBlob(view, legacy) ensures !HasRole(ReadFromBlob(view, legacy)[id]) {
      assert id !in ToFill(view, legacy);
    }
  }

  lemma RestedReadChangesNothing(db: Db, chatId: Id)
    requires WellKeyed(db) && chatId in db.chats && ToFill(View(db, chatId), db.chats[chatId].messages) == {}
    ensures Read(db, chatId) == db
  {
    var view, legacy := View(db, chatId), db.chats[chatId].messages;
    RestedTakesNothing(view, legacy);
    BackfillOfNone(db.rows, chatId, ReadFromBlob(view, legacy));
  }

  /** After as many reads as blob messages with a role lack a row, a read changes nothing any more. */
  lemma ReadsConverge(db: Db, chatId: Id, n: nat)
    requires WellKeyed(db) && chatId in db.chats
    requires n >= |Missing(View(db, chatId), db.chats[chatId].messages)|
    ensures Read(ReadTimes(db, chatId, n), chatId) == ReadTimes(db, chatId, n)
  {
    ReadsHeal(db, chatId, View(db, chatId), db.chats[chatId].messages, n);
    HealingConverges(View(db, chatId), db.chats[chatId].messages, chatId, n);
    RestedReadChangesNothing(ReadTimes(db, chatId, n), chatId);
  }

  lemma ServesAs(before: map<Id, Row>, after: map<Id, Row>, legacy: map<Id, Message>, chatId: Id, m: map<Id, Message>)
    requires Writable(legacy) && ReadsAs(before, legacy, m) && after == Healed(before, legacy, chatId)
    ensures ParentsOf(m) == RowParentsOf(after)
  {
    ReadServesHealedRows(before, legacy, chatId, m);
  }

  lemma NextReadCompletes(view: map<Id, Row>, legacy: map<Id, Message>, chatId: Id, x: Id, n: nat, m: map<Id, Message>,
                          before: map<Id, Row>, after: map<Id, Row>)
    requires DrawnFrom(view, legacy) && Writable(legacy) && x in view
    requires |Walk(RowParentsOf(view), x)| + n + 1 >= |Walk(ParentsOf(legacy), x)|
    requires after == HealedAfter(view, legacy, chatId, n + 1) && after == Healed(before, legacy, chatId)
    requires ReadsAs(before, legacy, m)
    ensures Thread(m, x) == Thread(legacy, x)
  {
    WalkCompletes(view, legacy, chatId, x, n + 1);
    ServesAs(before, after, legacy, chatId, m);
  }

  /** A read after enough others serves the blob's thread for every message that had a row. */
  lemma ReadsServeBlobThread(db: Db, chatId: Id, x: Id, n: nat, m: map<Id, Message>)
    requires WellKeyed(db) && chatId in db.chats && Writable(db.chats[chatId].messages)
    requires DrawnFrom(View(db, chatId), db.chats[chatId].messages) && x in View(db, chatId)
    requires |Walk(RowParentsOf(View(db, chatId)), x)| + n + 1 >= |Walk(ParentsOf(db.chats[chatId].messages), x)|
    requires ReadsAs(View(ReadTimes(db, chatId, n), chatId), db.chats[chatId].messages, m)
    ensures Thread(m, x) == Thread(db.chats[chatId].messages, x)
  {
    var view, legacy := View(db, chatId), db.chats[chatId].messages;
    ReadsHeal(db, chatId, view, legacy, n);
    HealedOnceMore(view, legacy, chatId, n);
    NextReadCompletes(view, legacy, chatId, x, n, m,
                      HealedAfter(view, legacy, chatId, n), HealedAfter(view, legacy, chatId, n + 1));
  }

  // ------------------------------------------------- what healing reaches

  /** Messages that have a row, or lie on the climb from one. */
  ghost predicate Reached(view: map<Id, Row>, legacy: map<Id, Message>, id: Id)
  {
    exists y :: y in view && id in Walk(ParentsOf(legacy), y)
  }

  /** A climb goes on to every stored parent. */
  lemma {:induction false} ClimbGoesOn(p: Parents, y: Id, visited: set<Id>, x: Id)
    requires x in p && x in Walk(p, y, visited) && p[x].Some? && p[x].value in p
    ensures p[x].value in Walk(p, y, visited) || p[x].value in visited
    decreases p.Keys - visited
  {
    if p[y].Some? && x != y {
      ClimbGoesOn(p, p[y].value, visited + {y}, x);
    }
  }

  ghost predicate AllReached(view: map<Id, Row>, legacy: map<Id, Message>, v: map<Id, Row>)
  {
    && DrawnFrom(v, legacy) && view.Keys <= v.Keys
    && forall id | id in v :: Reached(view, legacy, id)
  }

  lemma GapIsReached(view: map<Id, Row>, legacy: map<Id, Message>, v: map<Id, Row>, id: Id)
    requires AllReached(view, legacy, v) && id in legacy && id in RowGaps(v)
    ensures Reached(view, legacy, id)
  {
    var x :| x in v && Truthy(v[x].parent) == Some(id);
    assert Reached(view, legacy, x);
    var y :| y in view && x in Walk(ParentsOf(legacy), y);
    ClimbGoesOn(ParentsOf(legacy), y, {}, x);
  }

  lemma HealingReaches(view: map<Id, Row>, legacy: map<Id, Message>, chatId: Id, v: map<Id, Row>, healed: map<Id, Row>)
    requires AllReached(view, legacy, v) && Writable(legacy) && view != map[]
    requires healed == Healed(v, legacy, chatId)
    ensures AllReached(view, legacy, healed)
  {
    HealingKeepsParents(v, legacy, chatId);
    assert v != map[] by {
      var y :| y in view;
      assert y in v;
    }
    forall id | id in healed && id !in v ensures Reached(view, legacy, id) {
      GapIsReached(view, legacy, v, id);
    }
  }

  lemma RowsAreReached(view: map<Id, Row>, legacy: map<Id, Message>)
    requires DrawnFrom(view, legacy)
    ensures AllReached(view, legacy, view)
  {
    forall id | id in view ensures Reached(view, legacy, id) {
      assert id in Walk(ParentsOf(legacy), id);
    }
  }

  lemma OneMoreReached(view: map<Id, Row>, legacy: map<Id, Message>, chatId: Id, n: nat)
    requires AllReached(view, legacy, HealedAfter(view, legacy, chatId, n)) && Writable(legacy) && view != map[]
    ensures AllReached(view, legacy, HealedAfter(view, legacy, chatId, n + 1))
  {
    HealedOnceMore(view, legacy, chatId, n);
    HealingReaches(view, legacy, chatId, HealedAfter(view, legacy, chatId, n), HealedAfter(view, legacy, chatId, n + 1));
  }

  lemma OnlyReachedAreHealed(view: map<Id, Row>, legacy: map<Id, Message>, chatId: Id, n: nat)
    requires DrawnFrom(view, legacy) && Writable(legacy) && view != map[]
    ensures AllReached(view, legacy, HealedAfter(view, legacy, chatId, n))
  {
    RowsAreReached(view, legacy);
    for k := 0 to n
      invariant AllReached(view, legacy, HealedAfter(view, legacy, chatId, k))
    {
      OneMoreReached(view, legacy, chatId, k);
    }
  }

  lemma {:induction false} WalkStays(p: Parents, x: Id, visited: set<Id>)
    ensures forall y | y in Walk(p, x, visited) :: y in p
    decreases p.Keys - visited
  {
    if x in p && x !in visited && p[x].Some? {
      WalkStays(p, p[x].value, visited + {x});
    }
  }

  /**
   Of a chat with some rows, reads end up with a row for exactly the messages on climbs from
   its rows: a message without a row is never healed unless something below it has one.
   */
  lemma HealedAreReached(view: map<Id, Row>, legacy: map<Id, Message>, chatId: Id, n: nat, id: Id)
    requires DrawnFrom(view, legacy) && Writable(legacy) && view != map[]
    requires n >= |Missing(view, legacy)|
    ensures id in HealedAfter(view, legacy, chatId, n) <==> Reached(view, legacy, id)
  {
    var v := HealedAfter(view, legacy, chatId, n);
    OnlyReachedAreHealed(view, legacy, chatId, n);
    HealingConverges(view, legacy, chatId, n);
    RestMeansResolved(v, legacy);
    if Reached(view, legacy, id) {
      var y :| y in view && id in Walk(ParentsOf(legacy), y);
      HealedWalksAgree(v, legacy, y, {});
      WalkStays(RowParentsOf(v), y, {});
    }
  }
}
