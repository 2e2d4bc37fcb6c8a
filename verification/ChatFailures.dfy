/**
 Writes that fail.  An error on the way to the message table, or to the document after it,
 is dropped, and a client's save of the whole document writes no rows, so rows may be
 missing for a long time.  The rows there are stay drawn from the document, unless the first
 write of a message reached its row only, and later reads heal what they can.
 */
module ChatFailures {
  import opened Prelude
  import opened Forest
  import opened ChatMessages
  import opened Chats
  import opened ChatRuns
  import opened SelfHealing

  /** `written` names the messages whose row write succeeds, and `rowWritten` tells it of one message; the others fail. */
  datatype Op =
    | Insert(chatId: Id, history: History, written: set<Id>)
    | Write(chatId: Id, id: Id, patch: Message, rowWritten: bool, documentWritten: bool)
    | Save(chatId: Id, document: History)
    | ReadChat(chatId: Id, written: set<Id>)

  /** No message uses the row store's own `parent_id` key. */
  ghost predicate Plain(messages: map<Id, Message>)
  {
    forall id | id in messages :: messages[id].parent_id.Absent?
  }

  /** A saved document keeps every message that has a row, with its parent. */
  ghost predicate KeepsRowed(m: map<Id, Message>, old_: map<Id, Message>, rows: Rows, c: Id)
  {
    Plain(m) && forall id | RowOf(rows, c, id).Some? && id in old_ :: id in m && ParentOf(m[id]) == ParentOf(old_[id])
  }

  /** Chats get new ids, stored parents do not change, and no message gets a row without getting into the document. */
  ghost predicate Allowed(db: Db, op: Op)
  {
    match op
    case Insert(c, h, _) => c !in db.chats && |c| == UUID_LENGTH && Plain(h.messages)
    case Write(c, id, patch, rowWritten, documentWritten) =>
      && patch.parent_id.Absent? && StableWrite(HistoryOf(db, c), id, patch)
      && (rowWritten && !documentWritten ==> id in HistoryOf(db, c).messages)
    case Save(c, h) => c in db.chats ==> KeepsRowed(h.messages, db.chats[c].messages, db.rows, c)
    case ReadChat(c, _) => c in db.chats
  }

  function Step(db: Db, op: Op): Db
    requires WellKeyed(db)
  {
    match op
    case Insert(c, h, written) => Db(db.chats[c := h], Backfill(db.rows, c, Restrict(h.messages, written)))
    case Write(c, id, patch, rowWritten, documentWritten) => DualWrite(db, c, id, patch, rowWritten, documentWritten)
    case Save(c, h) => if c in db.chats then Db(db.chats[c := h], db.rows) else db
    case ReadChat(c, written) =>
      if c !in db.chats then db
      else Db(db.chats, Backfill(db.rows, c, Restrict(ReadFromBlob(View(db, c), db.chats[c].messages), written)))
  }

  /** The row of a message, if there is one, belongs to a message of the document and has its parent. */
  ghost predicate DrawnAt(messages: map<Id, Message>, rows: Rows, c: Id, id: Id)
  {
    RowOf(rows, c, id).Some? ==> id in messages && Truthy(RowOf(rows, c, id).value.parent) == ParentOf(messages[id])
  }

  ghost predicate ChatDrawn(messages: map<Id, Message>, rows: Rows, c: Id)
  {
    Plain(messages) && forall id :: DrawnAt(messages, rows, c, id)
  }

  ghost predicate RowsDrawn(db: Db)
  {
    WellKeyed(db) && forall c | c in db.chats :: ChatDrawn(db.chats[c].messages, db.rows, c)
  }

  lemma BackfilledRow(db: Db, c: Id, part: map<Id, Message>, id: Id)
    requires WellKeyed(db) && |c| == UUID_LENGTH
    ensures RowOf(Backfill(db.rows, c, part), c, id).Some? <==> RowOf(db.rows, c, id).Some? || (id in part && HasRole(part[id]))
  {
    var k := Key(c, id);
    StripKey(c, id);
    BackfillAt(db.rows, c, part, id);
    BackfillLookup(db.rows, c, part, k);
    if k in db.rows {
      KeyOwner(db, c, id);
    }
  }

  lemma GapIff(db: Db, c: Id, id: Id)
    requires WellKeyed(db) && c in db.chats
    ensures View(db, c) == map[] <==> forall other :: RowOf(db.rows, c, other).None?
    ensures id in RowGaps(View(db, c))
            <==> RowOf(db.rows, c, id).None? && exists other :: RowOf(db.rows, c, other).Some?
                                                                && Truthy(RowOf(db.rows, c, other).value.parent) == Some(id)
  {
    var view := View(db, c);
    forall other ensures other in view <==> RowOf(db.rows, c, other).Some? {
    }
    assert view == map[] <==> view.Keys == {};
    assert id in RowNamedParents(view) <==> exists other :: other in view && Truthy(view[other].parent) == Some(id);
  }

  /**
   After an insert or a read a message has a row exactly when it had one, or when its write succeeds
   and it has a role and, for a read, no row is there at all or some row names it as its parent.
   */
  lemma RowsWrittenIff(db: Db, op: Op, id: Id)
    requires WellKeyed(db) && (op.Insert? || op.ReadChat?) && Allowed(db, op)
    ensures var m := if op.Insert? then op.history.messages else db.chats[op.chatId].messages;
            RowOf(Step(db, op).rows, op.chatId, id).Some?
            <==> || RowOf(db.rows, op.chatId, id).Some?
                 || (&& id in m && HasRole(m[id]) && id in op.written
                     && (op.ReadChat? ==>
                           || (forall other :: RowOf(db.rows, op.chatId, other).None?)
                           || exists other :: RowOf(db.rows, op.chatId, other).Some?
                                              && Truthy(RowOf(db.rows, op.chatId, other).value.parent) == Some(id)))
  {
    var c := op.chatId;
    if op.Insert? {
      BackfilledRow(db, c, Restrict(op.history.messages, op.written), id);
    } else {
      BackfilledRow(db, c, Restrict(ReadFromBlob(View(db, c), db.chats[c].messages), op.written), id);
      GapIff(db, c, id);
    }
  }

  /** Each of the two writes of an upsert happens on its own: the row's though the document's fails, and the other way round. */
  lemma EachWriteOnItsOwn(db: Db, op: Op, id: Id)
    requires WellKeyed(db) && op.Write? && op.chatId in db.chats
    ensures var c, db' := op.chatId, Step(db, op);
            && (RowOf(db'.rows, c, id).Some? <==> RowOf(db.rows, c, id).Some? || (op.rowWritten && op.id == id))
            && (op.rowWritten && op.id == id && op.patch.role.Present? ==> RowOf(db'.rows, c, id).value.role == op.patch.role.value)
            && (!op.rowWritten ==> db'.rows == db.rows)
            && c in db'.chats
            && (id in db'.chats[c].messages <==> id in db.chats[c].messages || (op.documentWritten && op.id == id))
            && db'.chats[c].currentId == if op.documentWritten then Some(op.id) else db.chats[c].currentId
  {
    var c, h := op.chatId, db.chats[op.chatId];
    if Key(c, op.id) in db.rows {
      KeyOwner(db, c, op.id);
    }
    if id != op.id {
      UpsertRowElsewhere(db, c, op.id, Written(h, op.id, op.patch), c, id);
    }
  }

  // ------------------------------------------------------------ one step

  lemma BackfillKeepsWellKeyed(db: Db, chats: map<Id, History>, c: Id, part: map<Id, Message>)
    requires WellKeyed(db) && |c| == UUID_LENGTH && c in chats && db.chats.Keys <= chats.Keys
    requires forall c' | c' in chats :: |c'| == UUID_LENGTH
    ensures WellKeyed(Db(chats, Backfill(db.rows, c, part)))
  {
    var rows := Backfill(db.rows, c, part);
    forall k | k in rows ensures rows[k].chatId in chats && rows[k].chatId + "-" <= k {
      BackfillLookup(db.rows, c, part, k);
      if k in RoleKeys(c, part) {
        KeyInverse(c, part, k);
        if k in db.rows {
          KeyOwner(db, c, StripPrefix(c, k));
        }
      }
    }
  }

  /** Backfilling messages of the document that have no row yet keeps its rows drawn. */
  lemma BackfillKeepsDrawnAt(db: Db, messages: map<Id, Message>, c: Id, part: map<Id, Message>, id: Id)
    requires WellKeyed(db) && |c| == UUID_LENGTH && Plain(messages) && DrawnAt(messages, db.rows, c, id)
    requires id in part ==> id in messages && part[id] == messages[id] && RowOf(db.rows, c, id).None?
    ensures DrawnAt(messages, Backfill(db.rows, c, part), c, id)
  {
    var k := Key(c, id);
    StripKey(c, id);
    BackfillAt(db.rows, c, part, id);
    BackfillLookup(db.rows, c, part, k);
    if k in db.rows {
      KeyOwner(db, c, id);
    }
  }

  lemma WriteKeepsDrawnAt(db: Db, c: Id, h: History, id: Id, patch: Message)
    requires WellKeyed(db) && |c| == UUID_LENGTH && ChatDrawn(h.messages, db.rows, c)
    requires patch.parent_id.Absent? && StableWrite(h, id, patch)
    ensures var m := Upsert(h, id, patch).messages;
            DrawnAt(m, UpsertRow(db.rows, c, id, m[id]), c, id) && DrawnAt(m, db.rows, c, id) && m[id].parent_id.Absent?
  {
    assert DrawnAt(h.messages, db.rows, c, id);
    if Key(c, id) in db.rows {
      KeyOwner(db, c, id);
    }
  }

  lemma WriteKeepsNeighbourDrawn(db: Db, c: Id, messages: map<Id, Message>, id: Id, m: Message, other: Id)
    requires WellKeyed(db) && |c| == UUID_LENGTH && DrawnAt(messages, db.rows, c, other) && other != id
    ensures DrawnAt(messages[id := m], UpsertRow(db.rows, c, id, m), c, other) && DrawnAt(messages[id := m], db.rows, c, other)
  {
    UpsertRowElsewhere(db, c, id, m, c, other);
  }

  /** The chat that is written, whether its row write goes through or not. */
  lemma WriteKeepsChatDrawn(db: Db, c: Id, h: History, id: Id, patch: Message)
    requires WellKeyed(db) && |c| == UUID_LENGTH && ChatDrawn(h.messages, db.rows, c)
    requires patch.parent_id.Absent? && StableWrite(h, id, patch)
    ensures var m := Upsert(h, id, patch).messages;
            ChatDrawn(m, UpsertRow(db.rows, c, id, m[id]), c) && ChatDrawn(m, db.rows, c)
  {
    var m := Upsert(h, id, patch).messages;
    var rows := UpsertRow(db.rows, c, id, m[id]);
    WriteKeepsDrawnAt(db, c, h, id, patch);
    forall other ensures DrawnAt(m, rows, c, other) && DrawnAt(m, db.rows, c, other) {
      if other != id {
        assert DrawnAt(h.messages, db.rows, c, other);
        WriteKeepsNeighbourDrawn(db, c, h.messages, id, m[id], other);
      }
    }
  }

  /** Any other chat. */
  lemma WriteKeepsOtherDrawn(db: Db, c: Id, id: Id, m: Message, other: Id, messages: map<Id, Message>)
    requires WellKeyed(db) && |c| == |other| == UUID_LENGTH && other != c && ChatDrawn(messages, db.rows, other)
    ensures ChatDrawn(messages, UpsertRow(db.rows, c, id, m), other)
  {
    forall id' ensures DrawnAt(messages, UpsertRow(db.rows, c, id, m), other, id') {
      assert DrawnAt(messages, db.rows, other, id');
      UpsertRowElsewhere(db, c, id, m, other, id');
    }
  }

  lemma WriteKeepsDrawn(db: Db, c: Id, id: Id, patch: Message, written: bool)
    requires RowsDrawn(db) && c in db.chats && patch.parent_id.Absent? && StableWrite(db.chats[c], id, patch)
    ensures RowsDrawn(DualWrite(db, c, id, patch, written, true))
  {
    var db' := DualWrite(db, c, id, patch, written, true);
    var m := Upsert(db.chats[c], id, patch).messages[id];
    WriteKeepsWellKeyed(db, c, id, patch);
    WriteKeepsChatDrawn(db, c, db.chats[c], id, patch);
    forall other | other in db'.chats && other != c ensures ChatDrawn(db'.chats[other].messages, db'.rows, other) {
      WriteKeepsOtherDrawn(db, c, id, m, other, db.chats[other].messages);
    }
  }

  /** The document keeps the old message, and its row is written for the new one. */
  lemma LostDocumentDrawn(db: Db, c: Id, h: History, id: Id, patch: Message)
    requires WellKeyed(db) && |c| == UUID_LENGTH && ChatDrawn(h.messages, db.rows, c)
    requires patch.parent_id.Absent? && StableWrite(h, id, patch) && id in h.messages
    ensures ChatDrawn(h.messages, UpsertRow(db.rows, c, id, Written(h, id, patch)), c)
  {
    var m := Written(h, id, patch);
    WriteKeepsDrawnAt(db, c, h, id, patch);
    forall other ensures DrawnAt(h.messages, UpsertRow(db.rows, c, id, m), c, other) {
      assert DrawnAt(h.messages, db.rows, c, other);
      if other != id {
        UpsertRowElsewhere(db, c, id, m, c, other);
      }
    }
  }

  /** When only the row is written, the rows stay drawn exactly when the message is in the document already. */
  lemma LostDocumentKeepsDrawnIff(db: Db, c: Id, id: Id, patch: Message)
    requires RowsDrawn(db) && c in db.chats && patch.parent_id.Absent? && StableWrite(db.chats[c], id, patch)
    ensures RowsDrawn(DualWrite(db, c, id, patch, true, false)) <==> id in db.chats[c].messages
  {
    var h, db' := db.chats[c], DualWrite(db, c, id, patch, true, false);
    var m := Written(h, id, patch);
    WriteKeepsWellKeyed(db, c, id, patch);
    if id in h.messages {
      LostDocumentDrawn(db, c, h, id, patch);
      forall other | other in db'.chats && other != c ensures ChatDrawn(db'.chats[other].messages, db'.rows, other) {
        WriteKeepsOtherDrawn(db, c, id, m, other, db.chats[other].messages);
      }
    } else {
      assert !DrawnAt(h.messages, db'.rows, c, id) by {
        if Key(c, id) in db.rows {
          KeyOwner(db, c, id);
        }
      }
    }
  }

  lemma SaveKeepsDrawn(db: Db, c: Id, h: History)
    requires RowsDrawn(db) && c in db.chats && KeepsRowed(h.messages, db.chats[c].messages, db.rows, c)
    ensures RowsDrawn(Db(db.chats[c := h], db.rows))
  {
    forall id ensures DrawnAt(h.messages, db.rows, c, id) {
      assert DrawnAt(db.chats[c].messages, db.rows, c, id);
    }
    var db' := Db(db.chats[c := h], db.rows);
    forall other | other in db'.chats ensures ChatDrawn(db'.chats[other].messages, db'.rows, other) {
    }
  }

  lemma BackfillKeepsChatDrawn(db: Db, messages: map<Id, Message>, c: Id, part: map<Id, Message>)
    requires WellKeyed(db) && |c| == UUID_LENGTH && ChatDrawn(messages, db.rows, c)
    requires forall i | i in part :: i in messages && part[i] == messages[i] && RowOf(db.rows, c, i).None?
    ensures ChatDrawn(messages, Backfill(db.rows, c, part), c)
  {
    forall id ensures DrawnAt(messages, Backfill(db.rows, c, part), c, id) {
      assert DrawnAt(messages, db.rows, c, id);
      BackfillKeepsDrawnAt(db, messages, c, part, id);
    }
  }

  lemma BackfillKeepsOtherDrawn(rows: Rows, c: Id, part: map<Id, Message>, other: Id, messages: map<Id, Message>)
    requires |c| == |other| && other != c && ChatDrawn(messages, rows, other)
    ensures ChatDrawn(messages, Backfill(rows, c, part), other)
  {
    forall id ensures DrawnAt(messages, Backfill(rows, c, part), other, id) {
      assert DrawnAt(messages, rows, other, id);
      BackfillElsewhere(rows, c, part, other, id);
    }
  }

  /** Rows for messages of one chat that have none, with its document as it is or newly stored. */
  lemma BackfillKeepsDrawn(db: Db, c: Id, h: History, part: map<Id, Message>)
    requires RowsDrawn(db) && |c| == UUID_LENGTH && ChatDrawn(h.messages, db.rows, c)
    requires forall i | i in part :: i in h.messages && part[i] == h.messages[i] && RowOf(db.rows, c, i).None?
    ensures RowsDrawn(Db(db.chats[c := h], Backfill(db.rows, c, part)))
  {
    var db' := Db(db.chats[c := h], Backfill(db.rows, c, part));
    BackfillKeepsWellKeyed(db, db'.chats, c, part);
    BackfillKeepsChatDrawn(db, h.messages, c, part);
    forall other | other in db'.chats && other != c ensures ChatDrawn(db'.chats[other].messages, db'.rows, other) {
      BackfillKeepsOtherDrawn(db.rows, c, part, other, db.chats[other].messages);
    }
  }

  lemma NoRowsYet(db: Db, c: Id, id: Id)
    requires WellKeyed(db) && c !in db.chats && |c| == UUID_LENGTH
    ensures RowOf(db.rows, c, id).None?
  {
    if Key(c, id) in db.rows {
      KeyOwner(db, c, id);
    }
  }

  lemma InsertKeepsDrawn(db: Db, c: Id, h: History, written: set<Id>)
    requires RowsDrawn(db) && Allowed(db, Insert(c, h, written))
    ensures RowsDrawn(Db(db.chats[c := h], Backfill(db.rows, c, Restrict(h.messages, written))))
  {
    forall id ensures RowOf(db.rows, c, id).None? {
      NoRowsYet(db, c, id);
    }
    BackfillKeepsDrawn(db, c, h, Restrict(h.messages, written));
  }

  lemma ReadKeepsDrawn(db: Db, c: Id, written: set<Id>)
    requires RowsDrawn(db) && c in db.chats
    ensures RowsDrawn(Db(db.chats, Backfill(db.rows, c, Restrict(ReadFromBlob(View(db, c), db.chats[c].messages), written))))
  {
    var part := Restrict(ReadFromBlob(View(db, c), db.chats[c].messages), written);
    forall i | i in part
      ensures i in db.chats[c].messages && part[i] == db.chats[c].messages[i] && RowOf(db.rows, c, i).None?
    {
      NotInView(db, c, i);
    }
    assert db.chats[c := db.chats[c]] == db.chats;
    BackfillKeepsDrawn(db, c, db.chats[c], part);
  }

  lemma NotInView(db: Db, c: Id, id: Id)
    requires WellKeyed(db) && c in db.chats
    ensures RowOf(db.rows, c, id).Some? <==> id in View(db, c)
    ensures id in View(db, c) ==> RowOf(db.rows, c, id).value == View(db, c)[id]
    ensures id in ReadFromBlob(View(db, c), db.chats[c].messages) ==> id !in View(db, c)
  {
  }

  lemma StepKeepsDrawn(db: Db, op: Op)
    requires RowsDrawn(db) && Allowed(db, op)
    ensures RowsDrawn(Step(db, op))
  {
    match op
    case Insert(c, h, written) => InsertKeepsDrawn(db, c, h, written);
    case Write(c, id, patch, rowWritten, documentWritten) =>
      if c in db.chats {
        if documentWritten {
          WriteKeepsDrawn(db, c, id, patch, rowWritten);
        } else if rowWritten {
          LostDocumentKeepsDrawnIff(db, c, id, patch);
        }
      }
    case Save(c, h) =>
      if c in db.chats {
        SaveKeepsDrawn(db, c, h);
      }
    case ReadChat(c, written) => ReadKeepsDrawn(db, c, written);
  }

  // ---------------------------------------------------------------- runs

  const NO_CHATS := Db(map[], map[])

  ghost predicate IsRun(states: seq<Db>, ops: seq<Op>)
  {
    && |states| == |ops| + 1 && states[0] == NO_CHATS
    && forall i | 0 <= i < |ops| :: WellKeyed(states[i]) && Allowed(states[i], ops[i]) && states[i + 1] == Step(states[i], ops[i])
  }

  /** The operation does not write the document of the chat. */
  predicate LeavesDocument(op: Op, c: Id)
  {
    op.chatId == c ==> op.ReadChat? || (op.Write? && !op.documentWritten)
  }

  ghost predicate DocumentIs(db: Db, c: Id, h: History)
  {
    c in db.chats && db.chats[c] == h
  }

  lemma StepKeepsDocument(db: Db, op: Op, c: Id, h: History)
    requires WellKeyed(db) && Allowed(db, op) && LeavesDocument(op, c) && DocumentIs(db, c, h)
    ensures DocumentIs(Step(db, op), c, h)
  {
  }

  lemma {:induction false} KeptDocument(states: seq<Db>, c: Id, h: History, m: nat, n: nat)
    requires m <= n < |states| && DocumentIs(states[m], c, h)
    requires forall i | m <= i < n && DocumentIs(states[i], c, h) :: DocumentIs(states[i + 1], c, h)
    ensures DocumentIs(states[n], c, h)
    decreases n
  {
    if n > m {
      KeptDocument(states, c, h, m, n - 1);
    }
  }

  /** A saved document stays as it is through reads, through failing document writes and through all that happens to other chats. */
  lemma SavedDocumentStays(states: seq<Db>, ops: seq<Op>, m: nat, n: nat)
    requires IsRun(states, ops) && m < n <= |ops| && ops[m].Save? && ops[m].chatId in states[m].chats
    requires forall i | m < i < n :: LeavesDocument(ops[i], ops[m].chatId)
    ensures DocumentIs(states[n], ops[m].chatId, ops[m].document)
  {
    var c, h := ops[m].chatId, ops[m].document;
    forall i | m + 1 <= i < n && DocumentIs(states[i], c, h) ensures DocumentIs(states[i + 1], c, h) {
      StepKeepsDocument(states[i], ops[i], c, h);
    }
    KeptDocument(states, c, h, m + 1, n);
  }

  /** Over every run, whichever writes fail, each row is drawn from its document with the same parent. */
  lemma {:induction false} RunsKeepRowsDrawn(states: seq<Db>, ops: seq<Op>, n: nat)
    requires IsRun(states, ops) && n <= |ops|
    ensures RowsDrawn(states[n])
    decreases n
  {
    if n > 0 {
      RunsKeepRowsDrawn(states, ops, n - 1);
      StepKeepsDrawn(states[n - 1], ops[n - 1]);
    }
  }

  lemma DrawnView(db: Db, c: Id)
    requires RowsDrawn(db) && c in db.chats
    ensures DrawnFrom(View(db, c), db.chats[c].messages)
  {
    forall id | id in View(db, c)
      ensures id in db.chats[c].messages && Truthy(View(db, c)[id].parent) == ParentOf(db.chats[c].messages[id])
    {
      NotInView(db, c, id);
      assert ChatDrawn(db.chats[c].messages, db.rows, c) && DrawnAt(db.chats[c].messages, db.rows, c, id);
    }
  }

  lemma RunsLeaveDrawnViews(states: seq<Db>, ops: seq<Op>, db: Db, c: Id)
    requires IsRun(states, ops) && db == states[|ops|] && c in db.chats
    ensures WellKeyed(db) && DrawnFrom(View(db, c), db.chats[c].messages) && Plain(db.chats[c].messages)
  {
    RunsKeepRowsDrawn(states, ops, |ops|);
    DrawnView(db, c);
    assert ChatDrawn(db.chats[c].messages, db.rows, c);
  }

  /**
   After any run with failing writes, enough reads whose own writes succeed serve the
   document's thread for every message that had a row.
   */
  lemma FailuresAreHealed(states: seq<Db>, ops: seq<Op>, db: Db, c: Id, x: Id, n: nat, m: map<Id, Message>)
    requires IsRun(states, ops) && db == states[|ops|]
    requires WellKeyed(db) && c in db.chats && AllHaveRoles(db.chats[c].messages) && x in View(db, c)
    requires |Walk(RowParentsOf(View(db, c)), x)| + n + 1 >= |Walk(ParentsOf(db.chats[c].messages), x)|
    requires ReadsAs(View(ReadTimes(db, c, n), c), db.chats[c].messages, m)
    ensures Thread(m, x) == Thread(db.chats[c].messages, x)
  {
    RunsLeaveDrawnViews(states, ops, db, c);
    ReadsServeBlobThread(db, c, x, n, m);
  }

  /**
   And of a chat with some rows, reads end up with rows for exactly the messages on climbs
   from them: a message whose row write failed stays without until something below it has one.
   */
  lemma LostRowsReturnIff(states: seq<Db>, ops: seq<Op>, db: Db, c: Id, id: Id, n: nat)
    requires IsRun(states, ops) && db == states[|ops|]
    requires WellKeyed(db) && c in db.chats && AllHaveRoles(db.chats[c].messages) && View(db, c) != map[]
    requires n >= |Missing(View(db, c), db.chats[c].messages)|
    ensures id in View(ReadTimes(db, c, n), c) <==> Reached(View(db, c), db.chats[c].messages, id)
  {
    RunsLeaveDrawnViews(states, ops, db, c);
    ReadsHeal(db, c, View(db, c), db.chats[c].messages, n);
    HealedAreReached(View(db, c), db.chats[c].messages, c, n, id);
  }

  // ------------------------------------------------------ an answer is lost

  function NewChatOp(c: Id): Op
  {
    Insert(c, History(Some("u"), map["u" := BLANK.(role := Present("user"))]), {"u"})
  }

  function LostAnswerOp(c: Id): Op
  {
    Write(c, "a", ANSWER, false, true)
  }

  const ANSWER := BLANK.(parentId := Present(Some("u")), role := Present("assistant"))

  /** The document that such a chat ends with. */
  const WITH_ANSWER: map<Id, Message> := map["u" := BLANK.(role := Present("user")), "a" := ANSWER]

  lemma FirstRow(c: Id) returns (db: Db)
    requires |c| == UUID_LENGTH
    ensures WellKeyed(NO_CHATS) && Allowed(NO_CHATS, NewChatOp(c)) && db == Step(NO_CHATS, NewChatOp(c))
    ensures RowsDrawn(db) && db.chats == map[c := History(Some("u"), map["u" := BLANK.(role := Present("user"))])]
    ensures forall id :: RowOf(db.rows, c, id) == if id == "u" then Some(NewRow(c, BLANK.(role := Present("user")))) else None
  {
    var m := map["u" := BLANK.(role := Present("user"))];
    var empty := Db(map[], map[]);
    assert Restrict(m, {"u"}) == m;
    db := Db(map[c := History(Some("u"), m)], Backfill(map[], c, m));
    StepKeepsDrawn(empty, NewChatOp(c));
    forall id ensures RowOf(db.rows, c, id) == if id == "u" then Some(NewRow(c, m["u"])) else None {
      BackfillNew(empty, c, m, id);
    }
  }

  lemma AnswerWithoutRow(db: Db, c: Id) returns (last: Db)
    requires RowsDrawn(db) && db.chats == map[c := History(Some("u"), map["u" := BLANK.(role := Present("user"))])]
    requires forall id :: RowOf(db.rows, c, id).Some? <==> id == "u"
    ensures Allowed(db, LostAnswerOp(c)) && last == Step(db, LostAnswerOp(c))
    ensures RowsDrawn(last) && c in last.chats && last.chats[c] == History(Some("a"), WITH_ANSWER)
    ensures View(last, c).Keys == {"u"}
  {
    last := Db(db.chats[c := History(Some("a"), WITH_ANSWER)], db.rows);
    assert Upsert(db.chats[c], "a", ANSWER) == last.chats[c];
    StepKeepsDrawn(db, LostAnswerOp(c));
    OnlyUserInView(last, c);
  }

  lemma OnlyUserInView(db: Db, c: Id)
    requires WellKeyed(db) && c in db.chats && forall id :: RowOf(db.rows, c, id).Some? <==> id == "u"
    ensures View(db, c).Keys == {"u"}
  {
    forall id ensures id in View(db, c) <==> id == "u" {
      NotInView(db, c, id);
    }
  }

  lemma AnswerIsNotReached(view: map<Id, Row>)
    requires view.Keys == {"u"}
    ensures !Reached(view, WITH_ANSWER, "a")
  {
    assert Walk(ParentsOf(WITH_ANSWER), "u") == ["u"];
  }

  /** However often the chat is read, the message gets no row, and is in no map that a read returns. */
  ghost predicate NeverServed(db: Db, c: Id, id: Id)
    requires WellKeyed(db) && c in db.chats
  {
    forall n: nat :: IsLostAfter(db, c, id, n)
  }

  ghost predicate IsLostAfter(db: Db, c: Id, id: Id, n: nat)
    requires WellKeyed(db) && c in db.chats
  {
    var rows := View(ReadTimes(db, c, n), c);
    id !in rows && forall m | ReadsAs(rows, db.chats[c].messages, m) :: id !in m
  }

  lemma UnreachedIsLostAfter(db: Db, c: Id, legacy: map<Id, Message>, view: map<Id, Row>, id: Id, n: nat)
    requires WellKeyed(db) && c in db.chats && db.chats[c].messages == legacy && View(db, c) == view
    requires DrawnFrom(view, legacy) && Writable(legacy) && view != map[] && !Reached(view, legacy, id)
    ensures IsLostAfter(db, c, id, n)
  {
    ReadsHeal(db, c, view, legacy, n);
    OnlyReachedAreHealed(view, legacy, c, n);
    forall m | ReadsAs(View(ReadTimes(db, c, n), c), legacy, m) ensures id !in m {
      OnlyReachedAreHealed(view, legacy, c, n + 1);
      HealedOnceMore(view, legacy, c, n);
      ServedAreHealed(View(ReadTimes(db, c, n), c), HealedAfter(view, legacy, c, n + 1), legacy, c, m, id);
    }
  }

  /** A message on no climb from a row never gets one, and no read returns it. */
  lemma UnreachedIsNeverServed(db: Db, c: Id, id: Id)
    requires RowsDrawn(db) && c in db.chats && AllHaveRoles(db.chats[c].messages)
    requires View(db, c) != map[] && !Reached(View(db, c), db.chats[c].messages, id)
    ensures NeverServed(db, c, id)
  {
    DrawnView(db, c);
    assert ChatDrawn(db.chats[c].messages, db.rows, c);
    forall n: nat ensures IsLostAfter(db, c, id, n) {
      UnreachedIsLostAfter(db, c, db.chats[c].messages, View(db, c), id, n);
    }
  }

  lemma ServedAreHealed(before: map<Id, Row>, after: map<Id, Row>, legacy: map<Id, Message>, c: Id, m: map<Id, Message>, id: Id)
    requires Writable(legacy) && ReadsAs(before, legacy, m) && after == Healed(before, legacy, c) && id !in after
    ensures id !in m
  {
    ServesAs(before, after, legacy, c, m);
    assert id !in RowParentsOf(after);
    assert id in m ==> id in ParentsOf(m);
  }

  /** Two steps, the second without its row write. */
  ghost predicate IsLostAnswer(c: Id, first: Db, db: Db)
  {
    && WellKeyed(NO_CHATS) && Allowed(NO_CHATS, NewChatOp(c)) && first == Step(NO_CHATS, NewChatOp(c))
    && WellKeyed(first) && Allowed(first, LostAnswerOp(c)) && db == Step(first, LostAnswerOp(c))
  }

  lemma LostAnswerStates(c: Id) returns (first: Db, db: Db)
    requires |c| == UUID_LENGTH
    ensures IsLostAnswer(c, first, db)
    ensures RowsDrawn(db) && c in db.chats && db.chats[c].messages == WITH_ANSWER && View(db, c).Keys == {"u"}
  {
    first := FirstRow(c);
    db := AnswerWithoutRow(first, c);
  }

  lemma LostAnswerStaysLost(db: Db, c: Id)
    requires RowsDrawn(db) && c in db.chats && db.chats[c].messages == WITH_ANSWER && View(db, c).Keys == {"u"}
    ensures NeverServed(db, c, "a")
  {
    AnswerIsNotReached(View(db, c));
    assert "u" in View(db, c);
    UnreachedIsNeverServed(db, c, "a");
  }

  /** A new chat, then an answer whose row write fails: the answer is in its document and is never served again. */
  lemma LostAnswerIsNeverServed(c: Id) returns (first: Db, db: Db)
    requires |c| == UUID_LENGTH
    ensures IsLostAnswer(c, first, db)
    ensures WellKeyed(db) && c in db.chats && "a" in db.chats[c].messages && NeverServed(db, c, "a")
  {
    first, db := LostAnswerStates(c);
    LostAnswerStaysLost(db, c);
  }
}
