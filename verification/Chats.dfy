/**
 The chat store: each chat keeps its whole history as one JSON blob, and every
 write to a message is repeated in the message table.
 */
module Chats {
  import opened Prelude
  import opened Forest
  import opened ChatMessages

  datatype History = History(currentId: Option<Id>, messages: map<Id, Message>)

  datatype Db = Db(chats: map<Id, History>, rows: Rows)

  /** Length of the UUIDs that name chats. */
  const UUID_LENGTH := 36

  function MergeField<T>(old_: Field<T>, patch: Field<T>): Field<T>
  {
    if patch.Present? then patch else old_
  }

  function Merge(m: Message, patch: Message): Message
  {
    Message(MergeField(m.parentId, patch.parentId),
            MergeField(m.parent_id, patch.parent_id),
            MergeField(m.childrenIds, patch.childrenIds),
            MergeField(m.role, patch.role),
            MergeField(m.done, patch.done),
            MergeField(m.usage, patch.usage),
            MergeField(m.infoUsage, patch.infoUsage))
  }

  // ------------------------------------------------ writing one message

  function Written(h: History, id: Id, patch: Message): Message
  {
    if id in h.messages then Merge(h.messages[id], patch) else patch
  }

  function Upsert(h: History, id: Id, patch: Message): History
  {
    History(Some(id), h.messages[id := Written(h, id, patch)])
  }

  /** The dual write; a chat that does not exist is left alone. */
  function UpsertMessage(db: Db, chatId: Id, id: Id, patch: Message): Db
  {
    if chatId !in db.chats then db
    else
      var h := Upsert(db.chats[chatId], id, patch);
      Db(db.chats[chatId := h], UpsertRow(db.rows, chatId, id, h.messages[id]))
  }

  /** The same when a write may fail: the row is written first, the document then, and an error at either is dropped. */
  function DualWrite(db: Db, chatId: Id, id: Id, patch: Message, rowWritten: bool, documentWritten: bool): Db
  {
    var both := UpsertMessage(db, chatId, id, patch);
    Db(if documentWritten then both.chats else db.chats, if rowWritten then both.rows else db.rows)
  }

  // --------------------------------------------------- writing many rows

  function RoleKeys(chatId: Id, messages: map<Id, Message>): set<string>
  {
    set id | id in messages && HasRole(messages[id]) :: Key(chatId, id)
  }

  /** Every message that has a role is written to its row. */
  function Backfill(rows: Rows, chatId: Id, messages: map<Id, Message>): Rows
  {
    rows + map k | k in RoleKeys(chatId, messages) ::
      KeyInverse(chatId, messages, k); WrittenRow(RowAt(rows, k), chatId, messages[StripPrefix(chatId, k)])
  }

  lemma KeyInverse(chatId: Id, messages: map<Id, Message>, k: string)
    requires k in RoleKeys(chatId, messages)
    ensures var id := StripPrefix(chatId, k); id in messages && HasRole(messages[id]) && Key(chatId, id) == k
  {
  }

  lemma BackfillAt(rows: Rows, chatId: Id, messages: map<Id, Message>, id: Id)
    ensures Key(chatId, id) in RoleKeys(chatId, messages) <==> id in messages && HasRole(messages[id])
    ensures id in messages && HasRole(messages[id])
            ==> var k := Key(chatId, id);
                k in Backfill(rows, chatId, messages)
                && Backfill(rows, chatId, messages)[k] == WrittenRow(RowAt(rows, k), chatId, messages[id])
  {
    StripKey(chatId, id);
    if Key(chatId, id) in RoleKeys(chatId, messages) {
      KeyInverse(chatId, messages, Key(chatId, id));
    }
  }

  lemma RoleKeysStep(chatId: Id, part: map<Id, Message>, id: Id, m: Message)
    requires id !in part
    ensures RoleKeys(chatId, part[id := m]) == RoleKeys(chatId, part) + if HasRole(m) then {Key(chatId, id)} else {}
  {
  }

  lemma BackfillLookup(rows: Rows, chatId: Id, messages: map<Id, Message>, k: string)
    ensures k !in RoleKeys(chatId, messages) ==> RowAt(Backfill(rows, chatId, messages), k) == RowAt(rows, k)
    ensures k in RoleKeys(chatId, messages) ==>
              StripPrefix(chatId, k) in messages
              && RowAt(Backfill(rows, chatId, messages), k)
                 == Some(WrittenRow(RowAt(rows, k), chatId, messages[StripPrefix(chatId, k)]))
  {
  }

  lemma SameRows(a: Rows, b: Rows)
    requires forall k :: RowAt(a, k) == RowAt(b, k)
    ensures a == b
  {
    forall k ensures k in a <==> k in b {
      assert RowAt(a, k) == RowAt(b, k);
    }
    assert a.Keys == b.Keys;
    forall k | k in a ensures a[k] == b[k] {
      assert RowAt(a, k) == RowAt(b, k);
    }
  }

  lemma BackfillStep(rows: Rows, chatId: Id, part: map<Id, Message>, id: Id, m: Message)
    requires id !in part
    ensures Backfill(rows, chatId, part[id := m])
            == if HasRole(m) then UpsertRow(Backfill(rows, chatId, part), chatId, id, m) else Backfill(rows, chatId, part)
  {
    var before := Backfill(rows, chatId, part);
    var after := Backfill(rows, chatId, part[id := m]);
    var stepped := if HasRole(m) then UpsertRow(before, chatId, id, m) else before;
    var key := Key(chatId, id);
    RoleKeysStep(chatId, part, id, m);
    forall k ensures RowAt(after, k) == RowAt(stepped, k) {
      StepAt(rows, chatId, part, id, m, k);
    }
    SameRows(after, stepped);
  }

  lemma StepAt(rows: Rows, chatId: Id, part: map<Id, Message>, id: Id, m: Message, k: string)
    requires id !in part
    ensures RowAt(Backfill(rows, chatId, part[id := m]), k)
            == if HasRole(m) && k == Key(chatId, id) then Some(WrittenRow(RowAt(Backfill(rows, chatId, part), k), chatId, m))
               else RowAt(Backfill(rows, chatId, part), k)
  {
    RoleKeysStep(chatId, part, id, m);
    BackfillLookup(rows, chatId, part, k);
    BackfillLookup(rows, chatId, part[id := m], k);
    StripKey(chatId, id);
    if k in RoleKeys(chatId, part) {
      KeyInverse(chatId, part, k);
    }
  }

  function InsertNewChat(db: Db, chatId: Id, h: History): Db
  {
    Db(db.chats[chatId := h], Backfill(db.rows, chatId, h.messages))
  }

  // ------------------------------------------------------ gaps and reads

  function NamedParents(messages: map<Id, Message>): set<Id>
  {
    set id | id in messages && ParentOf(messages[id]).Some? :: ParentOf(messages[id]).value
  }

  /** Parents that are named but missing. */
  function UnresolvedParents(messages: map<Id, Message>): set<Id>
  {
    NamedParents(messages) - messages.Keys
  }

  function Restrict(messages: map<Id, Message>, ids: set<Id>): map<Id, Message>
  {
    map id | id in ids && id in messages :: messages[id]
  }

  function ParentsOf(messages: map<Id, Message>): Parents
  {
    map id | id in messages :: ParentOf(messages[id])
  }

  function RowParentsOf(view: map<Id, Row>): Parents
  {
    map id | id in view :: Truthy(view[id].parent)
  }

  function RowNamedParents(view: map<Id, Row>): set<Id>
  {
    set id | id in view && Truthy(view[id].parent).Some? :: Truthy(view[id].parent).value
  }

  /** Named parents that no row of the chat stands for. */
  function RowGaps(view: map<Id, Row>): set<Id>
  {
    RowNamedParents(view) - view.Keys
  }

  lemma GapsOfMap(view: map<Id, Row>, m: map<Id, Message>)
    requires IsMessageMap(view, m)
    ensures ParentsOf(m) == RowParentsOf(view)
    ensures UnresolvedParents(m) == RowGaps(view)
  {
    forall id | id in m ensures ParentOf(m[id]) == Truthy(view[id].parent) {
      assert m[id].(childrenIds := Absent) == RowMessage(view[id]);
    }
  }

  /** What a read takes from the blob: all of it when there is no row, and otherwise what fills gaps. */
  function ReadFromBlob(view: map<Id, Row>, legacy: map<Id, Message>): map<Id, Message>
  {
    if view == map[] then legacy else Restrict(legacy, RowGaps(view))
  }

  /** The rows after one read of a chat whose blob history is `legacy`. */
  function RowsAfterRead(rows: Rows, chatId: Id, legacy: map<Id, Message>): Rows
    requires KeyedBy(rows, chatId)
  {
    Backfill(rows, chatId, ReadFromBlob(ViewOf(rows, chatId), legacy))
  }

  lemma BackfillNext(before: Rows, chatId: Id, part: map<Id, Message>, id: Id, m: Message, rows: Rows, rows': Rows)
    requires id !in part && rows == Backfill(before, chatId, part)
    requires rows' == if HasRole(m) then UpsertRow(rows, chatId, id, m) else rows
    ensures rows' == Backfill(before, chatId, part[id := m])
  {
    BackfillStep(before, chatId, part, id, m);
  }

  // ------------------------------------------------------------ the store

  class ChatTable {
    var chats: map<Id, History>
    const table: ChatMessageTable

    constructor ()
      ensures chats == map[] && fresh(table) && table.rows == map[]
    {
      chats := map[];
      table := new ChatMessageTable();
    }

    ghost function State(): Db
      reads this, table
    {
      Db(chats, table.rows)
    }

    /** `rowWritten` and `documentWritten` tell whether the two writes go through. */
    method UpsertMessageToChat(chatId: Id, messageId: Id, message: Message, rowWritten: bool, documentWritten: bool)
      returns (found: bool)
      modifies this, table
      ensures found == (chatId in old(chats))
      ensures State() == DualWrite(old(State()), chatId, messageId, message, rowWritten, documentWritten)
    {
      if chatId !in chats {
        return false;
      }
      var history := chats[chatId];
      if messageId in history.messages {
        history := history.(messages := history.messages[messageId := Merge(history.messages[messageId], message)]);
      } else {
        history := history.(messages := history.messages[messageId := message]);
      }
      history := history.(currentId := Some(messageId));
      if rowWritten {
        var _ := table.UpsertMessage(messageId, chatId, history.messages[messageId]);
      }
      if documentWritten {
        chats := chats[chatId := history];
      }
      return true;
    }

    method BackfillMessages(chatId: Id, messages: map<Id, Message>)
      modifies table
      ensures table.rows == Backfill(old(table.rows), chatId, messages)
    {
      ghost var before := table.rows;
      var todo := messages.Keys;
      ghost var part: map<Id, Message> := map[];
      BackfillNothing(before, chatId);
      while todo != {}
        invariant todo <= messages.Keys && part.Keys == messages.Keys - todo
        invariant forall id | id in part :: part[id] == messages[id]
        invariant table.rows == Backfill(before, chatId, part)
        decreases todo
      {
        var id :| id in todo;
        ghost var rows := table.rows;
        if HasRole(messages[id]) {
          var _ := table.UpsertMessage(id, chatId, messages[id]);
        }
        BackfillNext(before, chatId, part, id, messages[id], rows, table.rows);
        part := part[id := messages[id]];
        todo := todo - {id};
      }
      assert part == messages;
    }

    method InsertChat(chatId: Id, history: History)
      modifies this, table
      ensures State() == InsertNewChat(old(State()), chatId, history)
    {
      chats := chats[chatId := history];
      BackfillMessages(chatId, history.messages);
    }

    /** The slow half of a read: fill the gaps of the map from the blob, and write what was missing. */
    method FillGaps(chatId: Id, fast: map<Id, Message>, unresolved: set<Id>) returns (messages: map<Id, Message>)
      modifies table
      ensures chatId !in chats ==> messages == fast && table.rows == old(table.rows)
      ensures chatId in chats ==>
                var missing := Restrict(chats[chatId].messages, unresolved);
                messages == fast + missing && table.rows == Backfill(old(table.rows), chatId, missing)
    {
      messages := fast;
      if chatId in chats {
        var missing := Restrict(chats[chatId].messages, unresolved);
        if missing != map[] {
          messages := messages + missing;
          BackfillMessages(chatId, missing);
        } else {
          assert fast + missing == fast;
          BackfillNothing(table.rows, chatId);
        }
      }
    }

    /** A read of a chat without rows: serve the blob, and write all of it. */
    method ReadBlob(chatId: Id) returns (result: Option<map<Id, Message>>)
      modifies table
      ensures chatId !in chats ==> result.None? && table.rows == old(table.rows)
      ensures chatId in chats ==>
                var legacy := chats[chatId].messages;
                result == Some(legacy) && table.rows == Backfill(old(table.rows), chatId, legacy)
    {
      if chatId !in chats {
        return None;
      }
      var history := chats[chatId].messages;
      if history != map[] {
        BackfillMessages(chatId, history);
      } else {
        BackfillNothing(table.rows, chatId);
      }
      return Some(history);
    }

    /**
     Read the message map of a chat, healing the rows on the way.  Where rows
     exist the map holds them and, one generation up, the blob messages that
     fill their gaps.
     */
    method GetMessagesMap(chatId: Id) returns (result: Option<map<Id, Message>>, ghost view: map<Id, Row>)
      modifies table
      ensures IsViewOf(old(table.rows), chatId, view)
      ensures chatId !in chats ==> table.rows == old(table.rows)
      ensures chatId !in chats ==> if view == map[] then result.None? else result.Some? && IsMessageMap(view, result.value)
      ensures chatId in chats ==>
                var legacy := chats[chatId].messages;
                && result.Some? && ReadsAs(view, legacy, result.value)
                && table.rows == Backfill(old(table.rows), chatId, ReadFromBlob(view, legacy))
    {
      var fast;
      fast, view := table.GetMessagesMap(chatId);
      SomeKeySomeView(table.rows, chatId, view);
      if fast.Some? {
        GapsOfMap(view, fast.value);
        var unresolved := UnresolvedParents(fast.value);
        if unresolved == {} {
          if chatId in chats {
            NothingToFill(table.rows, chatId, view, fast.value, chats[chatId].messages);
          }
          return Some(fast.value), view;
        }
        var messages := FillGaps(chatId, fast.value, unresolved);
        return Some(messages), view;
      }
      result := ReadBlob(chatId);
    }
  }

  /** The map a read returns, given the rows it found and the blob. */
  ghost predicate ReadsAs(view: map<Id, Row>, legacy: map<Id, Message>, m: map<Id, Message>)
  {
    if view == map[] then m == legacy
    else exists fast :: IsMessageMap(view, fast) && m == fast + ReadFromBlob(view, legacy)
  }

  lemma ReadsAsParents(view: map<Id, Row>, legacy: map<Id, Message>, m: map<Id, Message>)
    requires ReadsAs(view, legacy, m)
    ensures ParentsOf(m) == RowParentsOf(view) + ParentsOf(ReadFromBlob(view, legacy))
  {
    if view != map[] {
      var fast :| IsMessageMap(view, fast) && m == fast + ReadFromBlob(view, legacy);
      GapsOfMap(view, fast);
      ParentsOfUpdate(fast, ReadFromBlob(view, legacy));
    }
  }

  lemma SomeKeySomeView(rows: Rows, chatId: Id, view: map<Id, Row>)
    requires IsViewOf(rows, chatId, view)
    ensures KeysOf(rows, chatId) == {} <==> view == map[]
  {
    if KeysOf(rows, chatId) != {} {
      var k :| k in KeysOf(rows, chatId);
      assert StripPrefix(chatId, k) in view;
    }
    if view != map[] {
      var id :| id in view;
    }
  }

  lemma NothingToFill(rows: Rows, chatId: Id, view: map<Id, Row>, fast: map<Id, Message>, legacy: map<Id, Message>)
    requires view != map[] && RowGaps(view) == {}
    ensures Backfill(rows, chatId, ReadFromBlob(view, legacy)) == rows
    ensures fast + ReadFromBlob(view, legacy) == fast
  {
    assert Restrict(legacy, {}) == map[];
    BackfillNothing(rows, chatId);
  }

  lemma BackfillNothing(rows: Rows, chatId: Id)
    ensures Backfill(rows, chatId, map[]) == rows
  {
  }

  lemma ParentsOfUpdate(a: map<Id, Message>, b: map<Id, Message>)
    ensures ParentsOf(a + b) == ParentsOf(a) + ParentsOf(b)
  {
  }
}
