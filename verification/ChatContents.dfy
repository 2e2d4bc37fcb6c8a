/**
 What the stores hold of a message's own values, its role, whether it is done and its usage,
 after any run of writes, and what a read serves of them.
 */
module ChatContents {
  import opened Prelude
  import opened ChatMessages
  import opened Chats
  import opened Spending
  import opened ChatTurns
  import opened ChatRuns

  /** What was sent last under a key, and what was there before when nothing was sent. */
  function LastSent<T>(before: Field<T>, sent: seq<Message>, key: Message -> Field<T>): Field<T>
  {
    if sent == [] then before
    else
      var last := key(sent[|sent| - 1]);
      if last.Present? then last else LastSent(before, sent[..|sent| - 1], key)
  }

  function ParentIdKey(m: Message): Field<Option<Id>> { m.parentId }
  function ParentKey(m: Message): Field<Option<Id>> { m.parent_id }
  function ChildrenKey(m: Message): Field<seq<Id>> { m.childrenIds }
  function RoleKey(m: Message): Field<string> { m.role }
  function DoneKey(m: Message): Field<bool> { m.done }
  function UsageKey(m: Message): Field<Usage> { m.usage }
  function InfoUsageKey(m: Message): Field<Usage> { m.infoUsage }

  lemma LastSentOne<T>(before: Field<T>, sent: seq<Message>, m: Message, key: Message -> Field<T>)
    ensures LastSent(before, sent + [m], key) == if key(m).Present? then key(m) else LastSent(before, sent, key)
  {
    assert (sent + [m])[..|sent|] == sent;
  }

  lemma {:induction false} LastSentFirst<T>(before: Field<T>, sent: seq<Message>, key: Message -> Field<T>)
    requires sent != []
    ensures LastSent(before, sent, key)
            == LastSent(if key(sent[0]).Present? then key(sent[0]) else before, sent[1..], key)
    decreases |sent|
  {
    if |sent| > 1 {
      LastSentFirst(before, sent[..|sent| - 1], key);
      assert sent[..|sent| - 1][1..] == sent[1..][..|sent[1..]| - 1];
    }
  }

  lemma {:induction false} NothingSent<T>(before: Field<T>, sent: seq<Message>, key: Message -> Field<T>)
    requires forall m | m in sent :: key(m).Absent?
    ensures LastSent(before, sent, key) == before
    decreases |sent|
  {
    if sent != [] {
      assert sent[|sent| - 1] in sent;
      NothingSent(before, sent[..|sent| - 1], key);
    }
  }

  lemma {:induction false} AllSend<T>(before: Field<T>, sent: seq<Message>, key: Message -> Field<T>, value: T)
    requires sent != [] && forall m | m in sent :: key(m) == Present(value)
    ensures LastSent(before, sent, key) == Present(value)
  {
    assert sent[|sent| - 1] in sent;
  }

  // ------------------------------------------------ the document of a chat

  /** The patches that a run of writes sends to one message. */
  function SentTo(ws: seq<Write>, id: Id): seq<Message>
  {
    if ws == [] then [] else (if ws[0].0 == id then [ws[0].1] else []) + SentTo(ws[1..], id)
  }

  /** The stored message; one that is not stored carries no key. */
  function MessageAt(h: History, id: Id): Message
  {
    if id in h.messages then h.messages[id] else BLANK
  }

  /** Each key of m is what was sent last under it, or as before. */
  ghost predicate IsLastOf(before: Message, sent: seq<Message>, m: Message)
  {
    && m.parentId == LastSent(before.parentId, sent, ParentIdKey)
    && m.parent_id == LastSent(before.parent_id, sent, ParentKey)
    && m.childrenIds == LastSent(before.childrenIds, sent, ChildrenKey)
    && m.role == LastSent(before.role, sent, RoleKey)
    && m.done == LastSent(before.done, sent, DoneKey)
    && m.usage == LastSent(before.usage, sent, UsageKey)
    && m.infoUsage == LastSent(before.infoUsage, sent, InfoUsageKey)
  }

  lemma LastSentCons<T>(before: Field<T>, patch: Message, sent: seq<Message>, key: Message -> Field<T>)
    ensures LastSent(before, [patch] + sent, key) == LastSent(LastSent(before, [patch], key), sent, key)
  {
    LastSentFirst(before, [patch] + sent, key);
    assert ([patch] + sent)[1..] == sent && [patch][..0] == [];
  }

  lemma FirstThenLast(before: Message, patch: Message, next: Message, sent: seq<Message>, m: Message)
    requires IsLastOf(before, [patch], next) && IsLastOf(next, sent, m)
    ensures IsLastOf(before, [patch] + sent, m)
  {
    LastSentCons(before.parentId, patch, sent, ParentIdKey);
    LastSentCons(before.parent_id, patch, sent, ParentKey);
    LastSentCons(before.childrenIds, patch, sent, ChildrenKey);
    LastSentCons(before.role, patch, sent, RoleKey);
    LastSentCons(before.done, patch, sent, DoneKey);
    LastSentCons(before.usage, patch, sent, UsageKey);
    LastSentCons(before.infoUsage, patch, sent, InfoUsageKey);
  }

  lemma OneUpsert(h: History, id: Id, patch: Message)
    ensures IsLastOf(MessageAt(h, id), [patch], MessageAt(Upsert(h, id, patch), id))
  {
  }

  /**
   After any run of upserts each key of a stored message, usage included, is that of the last
   patch that carried it, and otherwise as before; the message written last is the current one.
   */
  lemma {:induction false} StoredIsLastSent(h: History, ws: seq<Write>, id: Id)
    ensures var h' := Apply(h, ws);
            && (id in h'.messages <==> id in h.messages || SentTo(ws, id) != [])
            && IsLastOf(MessageAt(h, id), SentTo(ws, id), MessageAt(h', id))
            && h'.currentId == if ws == [] then h.currentId else Some(ws[|ws| - 1].0)
    decreases |ws|
  {
    if ws != [] {
      var next := Upsert(h, ws[0].0, ws[0].1);
      StoredIsLastSent(next, ws[1..], id);
      if ws[0].0 != id {
        assert SentTo(ws, id) == SentTo(ws[1..], id);
      } else {
        OneUpsert(h, id, ws[0].1);
        FirstThenLast(MessageAt(h, id), ws[0].1, MessageAt(next, id), SentTo(ws[1..], id), MessageAt(Apply(h, ws), id));
      }
    }
  }

  lemma {:induction false} SentIsWritten(ws: seq<Write>, id: Id)
    ensures forall m :: m in SentTo(ws, id) <==> (id, m) in ws
    decreases |ws|
  {
    if ws != [] {
      SentIsWritten(ws[1..], id);
      assert ws == [ws[0]] + ws[1..];
    }
  }

  // -------------------------------------------------------- the table of rows

  /** One write to the table. */
  datatype RowWrite = RowWrite(chatId: Id, id: Id, message: Message)

  function RowsAfter(ws: seq<RowWrite>): Rows
  {
    if ws == [] then map[]
    else
      var w := ws[|ws| - 1];
      UpsertRow(RowsAfter(ws[..|ws| - 1]), w.chatId, w.id, w.message)
  }

  function SentToRow(ws: seq<RowWrite>, chatId: Id, id: Id): seq<Message>
  {
    if ws == [] then []
    else
      var w := ws[|ws| - 1];
      SentToRow(ws[..|ws| - 1], chatId, id) + if w.chatId == chatId && w.id == id then [w.message] else []
  }

  /** The count a message reports under a name. */
  function Reported(m: Message, name: string): Field<int>
  {
    var usage := GetUsage(m);
    if usage.Some? && name in usage.value then Present(usage.value[name]) else Absent
  }

  function CountKey(name: string): Message -> Field<int>
  {
    m => Reported(m, name)
  }

  function CountOf(usage: Field<Usage>, name: string): Field<int>
  {
    if usage.Present? && name in usage.value then Present(usage.value[name]) else Absent
  }

  /** A parent sent under the table's own key, which falls back to the other one when it is falsy. */
  function ParentSent(m: Message): Field<Option<Id>>
  {
    if m.parent_id.Absent? then Absent
    else if Truthy(m.parent_id.value).Some? then m.parent_id
    else Present(Truthy(m.parentId.GetOr(None)))
  }

  /** The parent that the first write of a message gives its row. */
  function FirstParent(m: Message): Option<Id>
  {
    if Truthy(m.parent_id.GetOr(None)).Some? then m.parent_id.value else Truthy(m.parentId.GetOr(None))
  }

  /** A message of a map shows what the writes of its row sent last. */
  ghost predicate ShowsLast(sent: seq<Message>, m: Message)
    requires sent != []
  {
    && m.role == Present(LastSent(Absent, sent, RoleKey).GetOr("user"))
    && m.done == Present(LastSent(Absent, sent, DoneKey).GetOr(true))
    && Present(ParentOf(m)) == LastSent(Present(FirstParent(sent[0])), sent, ParentSent)
    && m.parent_id == Absent
    && m.infoUsage == m.usage
    && (m.usage.Present? <==> exists s :: s in sent && GetUsage(s).Some?)
    && forall name :: CountOf(m.usage, name) == LastSent(Absent, sent, CountKey(name))
  }

  lemma ShowsFirst(chatId: Id, m: Message)
    ensures ShowsLast([m], RowMessage(NewRow(chatId, m)))
  {
    assert m in [m];
    assert [m][..0] == [];
  }

  lemma ShowsNext(sent: seq<Message>, r: Row, m: Message)
    requires sent != [] && ShowsLast(sent, RowMessage(r))
    ensures ShowsLast(sent + [m], RowMessage(UpdatedRow(r, m)))
  {
    var shown, next := RowMessage(r), RowMessage(UpdatedRow(r, m));
    LastSentOne(Absent, sent, m, RoleKey);
    LastSentOne(Absent, sent, m, DoneKey);
    LastSentOne(Present(FirstParent(sent[0])), sent, m, ParentSent);
    assert (sent + [m])[0] == sent[0];
    forall name ensures CountOf(next.usage, name) == LastSent(Absent, sent + [m], CountKey(name)) {
      LastSentOne(Absent, sent, m, CountKey(name));
      assert CountOf(shown.usage, name) == LastSent(Absent, sent, CountKey(name));
    }
    assert forall s :: s in sent + [m] <==> s in sent || s == m;
  }

  ghost predicate Uuids(ws: seq<RowWrite>)
  {
    forall w | w in ws :: |w.chatId| == UUID_LENGTH
  }

  /** The row of a message shows what was sent to it, and there is one when anything was. */
  lemma {:induction false} RowShowsLast(ws: seq<RowWrite>, chatId: Id, id: Id)
    requires Uuids(ws) && |chatId| == UUID_LENGTH
    ensures var key, sent := Key(chatId, id), SentToRow(ws, chatId, id);
            && (key in RowsAfter(ws) <==> sent != [])
            && (key in RowsAfter(ws) ==> RowsAfter(ws)[key].chatId == chatId
                                         && ShowsLast(sent, RowMessage(RowsAfter(ws)[key])))
    decreases |ws|
  {
    if ws != [] {
      var earlier, w := ws[..|ws| - 1], ws[|ws| - 1];
      var key := Key(chatId, id);
      RowShowsLast(earlier, chatId, id);
      if Key(w.chatId, w.id) == key {
        assert w in ws;
        KeysOfEqualLengthChatsDiffer(w.chatId, w.id, chatId, id);
        if key in RowsAfter(earlier) {
          ShowsNext(SentToRow(earlier, chatId, id), RowsAfter(earlier)[key], w.message);
        } else {
          ShowsFirst(chatId, w.message);
        }
      } else {
        assert SentToRow(ws, chatId, id) == SentToRow(earlier, chatId, id);
      }
    }
  }

  lemma {:induction false} WritesKeepKeys(ws: seq<RowWrite>)
    requires Uuids(ws)
    ensures forall k | k in RowsAfter(ws) :: |RowsAfter(ws)[k].chatId| == UUID_LENGTH && RowsAfter(ws)[k].chatId + "-" <= k
    decreases |ws|
  {
    if ws != [] {
      var earlier, w := ws[..|ws| - 1], ws[|ws| - 1];
      assert w in ws;
      WritesKeepKeys(earlier);
      var key := Key(w.chatId, w.id);
      if key in RowsAfter(earlier) {
        RowShowsLast(earlier, w.chatId, w.id);
      }
    }
  }

  /**
   After any run of writes to the table, in any order and to any chats, the map read for a chat
   holds exactly the messages written to it.  Each shows the role and `done` sent last, the
   parent of its first write until the table's own key sends another, and every count of the
   last report that carried it, a second time under `info`.
   */
  lemma ReadServesLastSent(ws: seq<RowWrite>, chatId: Id, id: Id, m: map<Id, Message>)
    requires Uuids(ws) && |chatId| == UUID_LENGTH
    requires KeyedBy(RowsAfter(ws), chatId) ==> IsMessageMap(ViewOf(RowsAfter(ws), chatId), m)
    ensures KeyedBy(RowsAfter(ws), chatId)
    ensures id in m <==> SentToRow(ws, chatId, id) != []
    ensures id in m ==> ShowsLast(SentToRow(ws, chatId, id), m[id].(childrenIds := Absent))
  {
    WritesKeepKeys(ws);
    RowShowsLast(ws, chatId, id);
    var view := ViewOf(RowsAfter(ws), chatId);
    assert id in m <==> id in view;
  }

  // ------------------------------------------------------------ usage reports

  /** value is the first non-zero count among the names, or zero when all are. */
  ghost predicate IsFirstNonZero(u: Usage, names: seq<string>, value: int)
  {
    if forall i | 0 <= i < |names| :: Count(u, names[i]) == 0 then value == 0
    else exists i | 0 <= i < |names| :: value == Count(u, names[i]) != 0 && forall j | 0 <= j < i :: Count(u, names[j]) == 0
  }

  lemma {:induction false} FirstNonZeroIs(u: Usage, names: seq<string>)
    ensures IsFirstNonZero(u, names, FirstNonZero(u, names))
    decreases |names|
  {
    if names != [] {
      FirstNonZeroIs(u, names[1..]);
      if Count(u, names[0]) == 0 && exists i | 0 <= i < |names| :: Count(u, names[i]) != 0 {
        var rest := names[1..];
        assert !forall i | 0 <= i < |rest| :: Count(u, rest[i]) == 0 by {
          var i :| 0 <= i < |names| && Count(u, names[i]) != 0;
          assert rest[i - 1] == names[i];
        }
        var i :| 0 <= i < |rest| && FirstNonZero(u, rest) == Count(u, rest[i]) != 0 && forall j | 0 <= j < i :: Count(u, rest[j]) == 0;
        assert names[i + 1] == rest[i] && forall j | 1 <= j < i + 1 :: names[j] == rest[j - 1];
      }
    }
  }

  /** The raw report of a message: its usage, or that of `info` when the first is missing or empty. */
  function RawReport(m: Message): Usage
  {
    if m.usage.Present? && m.usage.value != map[] then m.usage.value
    else if m.infoUsage.Present? then m.infoUsage.value
    else map[]
  }

  /**
   The counts a message reports: each of its raw ones, with input and output counts taken from
   the first name in use that is not zero, and the total from the report or else their sum.
   */
  lemma ReportIsNormalized(m: Message)
    ensures GetUsage(m).Some? <==> RawReport(m) != map[]
    ensures GetUsage(m).Some? ==>
              var raw, u := RawReport(m), GetUsage(m).value;
              && IsFirstNonZero(raw, ["input_tokens", "prompt_tokens", "prompt_eval_count", "prompt_n"], Count(u, "input_tokens"))
              && IsFirstNonZero(raw, ["output_tokens", "completion_tokens", "eval_count", "predicted_n"], Count(u, "output_tokens"))
              && Count(u, "total_tokens") == (if Count(raw, "total_tokens") != 0 then Count(raw, "total_tokens")
                                              else Count(u, "input_tokens") + Count(u, "output_tokens"))
              && u.Keys == raw.Keys + {"input_tokens", "output_tokens", "total_tokens"}
              && forall name | name in raw && name !in {"input_tokens", "output_tokens", "total_tokens"} :: u[name] == raw[name]
  {
    var raw := RawReport(m);
    FirstNonZeroIs(raw, ["input_tokens", "prompt_tokens", "prompt_eval_count", "prompt_n"]);
    FirstNonZeroIs(raw, ["output_tokens", "completion_tokens", "eval_count", "predicted_n"]);
  }

  /** An upsert that reports input tokens, under any of their names, leaves tokens on the row. */
  lemma ReportReachesRow(db: Db, chatId: Id, id: Id, patch: Message, name: string)
    requires chatId in db.chats && patch.usage.Present? && Count(patch.usage.value, name) != 0
    requires name in {"input_tokens", "prompt_tokens", "prompt_eval_count", "prompt_n"}
    ensures var rows := UpsertMessage(db, chatId, id, patch).rows;
            Key(chatId, id) in rows && HoldsTokens(rows[Key(chatId, id)])
  {
    var m := UpsertMessage(db, chatId, id, patch).chats[chatId].messages[id];
    assert RawReport(m) == patch.usage.value;
    ReportIsNormalized(m);
    var names := ["input_tokens", "prompt_tokens", "prompt_eval_count", "prompt_n"];
    assert name == names[0] || name == names[1] || name == names[2] || name == names[3];
  }

  // ----------------------------------------- rows beside the document they copy

  /** The row has the message's role, `done` and counts, where the message carries them. */
  ghost predicate Mirrors(r: Row, m: Message)
  {
    && (m.role.Present? ==> r.role == m.role.value)
    && (m.done.Present? ==> r.done == m.done.value)
    && forall name | Reported(m, name).Present? ::
         r.usage.Some? && name in r.usage.value && r.usage.value[name] == Reported(m, name).value
  }

  ghost predicate MirrorsAt(h: History, rows: Rows, chatId: Id, id: Id)
  {
    id in h.messages && RowOf(rows, chatId, id).Some? ==> Mirrors(RowOf(rows, chatId, id).value, h.messages[id])
  }

  ghost predicate RowsMirror(db: Db)
  {
    WellKeyed(db) && forall c, id | c in db.chats :: MirrorsAt(db.chats[c], db.rows, c, id)
  }

  /** Writing a message to its row, whatever the row was, makes the row mirror it. */
  lemma WrittenMirrors(row: Option<Row>, chatId: Id, m: Message)
    ensures Mirrors(WrittenRow(row, chatId, m), m)
  {
  }

  lemma WriteKeepsMirror(db: Db, chatId: Id, id: Id, patch: Message)
    requires RowsMirror(db)
    ensures RowsMirror(UpsertMessage(db, chatId, id, patch))
  {
    if chatId in db.chats {
      var db' := UpsertMessage(db, chatId, id, patch);
      WriteKeepsWellKeyed(db, chatId, id, patch);
      var m := Written(db.chats[chatId], id, patch);
      WrittenMirrors(RowAt(db.rows, Key(chatId, id)), chatId, m);
      forall c, other | c in db'.chats ensures MirrorsAt(db'.chats[c], db'.rows, c, other) {
        assert MirrorsAt(db.chats[c], db.rows, c, other);
        if c != chatId || other != id {
          UpsertRowElsewhere(db, chatId, id, m, c, other);
        }
      }
    }
  }

  lemma {:induction false} ReplayKeepsMirror(db: Db, chatId: Id, ws: seq<Write>)
    requires RowsMirror(db)
    ensures RowsMirror(Replay(db, chatId, ws))
    decreases |ws|
  {
    if ws != [] {
      WriteKeepsMirror(db, chatId, ws[0].0, ws[0].1);
      ReplayKeepsMirror(UpsertMessage(db, chatId, ws[0].0, ws[0].1), chatId, ws[1..]);
    }
  }

  lemma NewChatKeepsMirror(db: Db, chatId: Id, h: History)
    requires RowsMirror(db) && chatId !in db.chats && |chatId| == UUID_LENGTH
    ensures RowsMirror(InsertNewChat(db, chatId, h))
  {
    var db' := InsertNewChat(db, chatId, h);
    NewChatKeepsWellKeyed(db, chatId, h);
    forall c, id | c in db'.chats ensures MirrorsAt(db'.chats[c], db'.rows, c, id) {
      if c == chatId {
        BackfillNew(db, chatId, h.messages, id);
      } else {
        assert MirrorsAt(db.chats[c], db.rows, c, id);
        BackfillElsewhere(db.rows, chatId, h.messages, c, id);
      }
    }
  }

  /** A save of the whole document that brings no message and leaves these values alone. */
  ghost predicate SameContents(m: map<Id, Message>, old_: map<Id, Message>)
  {
    forall id | id in m :: id in old_ && m[id].role == old_[id].role && m[id].done == old_[id].done
                           && m[id].usage == old_[id].usage && m[id].infoUsage == old_[id].infoUsage
  }

  /** Chats are new and named by UUIDs; turns and writes are arbitrary. */
  ghost predicate KeepsContents(db: Db, op: Op)
  {
    match op
    case NewChat(c, _) => c !in db.chats && |c| == UUID_LENGTH
    case SaveDocument(c, h) => c in db.chats ==> SameContents(h.messages, db.chats[c].messages)
    case _ => true
  }

  ghost predicate AllKeepContents(db: Db, ops: seq<Op>)
    decreases |ops|
  {
    ops != [] ==> KeepsContents(db, ops[0]) && AllKeepContents(Step(db, ops[0]), ops[1..])
  }

  lemma SameContentMirrors(r: Row, m: Message, old_: Message)
    requires m.role == old_.role && m.done == old_.done && m.usage == old_.usage && m.infoUsage == old_.infoUsage
    requires Mirrors(r, old_)
    ensures Mirrors(r, m)
  {
    assert GetUsage(m) == GetUsage(old_);
    forall name | Reported(m, name).Present?
      ensures r.usage.Some? && name in r.usage.value && r.usage.value[name] == Reported(m, name).value
    {
      assert Reported(m, name) == Reported(old_, name);
    }
  }

  lemma SaveKeepsMirror(db: Db, chatId: Id, h: History)
    requires RowsMirror(db) && chatId in db.chats && SameContents(h.messages, db.chats[chatId].messages)
    ensures RowsMirror(Db(db.chats[chatId := h], db.rows))
  {
    var db' := Db(db.chats[chatId := h], db.rows);
    forall c, id | c in db'.chats ensures MirrorsAt(db'.chats[c], db'.rows, c, id) {
      assert MirrorsAt(db.chats[c], db.rows, c, id);
      if c == chatId && id in h.messages && RowOf(db.rows, c, id).Some? {
        SameContentMirrors(RowOf(db.rows, c, id).value, h.messages[id], db.chats[chatId].messages[id]);
      }
    }
  }

  lemma {:induction false} RunsKeepMirror(db: Db, ops: seq<Op>)
    requires RowsMirror(db) && AllKeepContents(db, ops)
    ensures RowsMirror(Run(db, ops))
    decreases |ops|
  {
    if ops != [] {
      match ops[0] {
        case NewChat(c, t) => NewChatKeepsMirror(db, c, NewHistory(t));
        case FollowUpOp(c, t) => ReplayKeepsMirror(db, c, FollowUpWrites(HistoryOf(db, c), t));
        case WriteMessage(c, id, patch) => WriteKeepsMirror(db, c, id, patch);
        case SaveDocument(c, h) =>
          if c in db.chats {
            SaveKeepsMirror(db, c, h);
          }
      }
      RunsKeepMirror(Step(db, ops[0]), ops[1..]);
    }
  }

  /**
   After every such run from empty stores, the map read from the rows serves each message of
   the document with its role, its `done`, and each count of its report.
   */
  lemma RowsServeContents(ops: seq<Op>, c: Id, id: Id, m: map<Id, Message>)
    requires AllKeepContents(Db(map[], map[]), ops)
    requires var db := Run(Db(map[], map[]), ops);
             && c in db.chats && id in db.chats[c].messages && id in m
             && KeyedBy(db.rows, c) && IsMessageMap(ViewOf(db.rows, c), m)
    ensures var stored := Run(Db(map[], map[]), ops).chats[c].messages[id];
            && (stored.role.Present? ==> m[id].role == stored.role)
            && (stored.done.Present? ==> m[id].done == stored.done)
            && forall name | Reported(stored, name).Present? ::
                 CountOf(m[id].usage, name) == CountOf(m[id].infoUsage, name) == Reported(stored, name)
  {
    RunsKeepMirror(Db(map[], map[]), ops);
    var db := Run(Db(map[], map[]), ops);
    assert MirrorsAt(db.chats[c], db.rows, c, id);
    assert Some(ViewOf(db.rows, c)[id]) == RowOf(db.rows, c, id);
  }

  // ------------------------------------------------- saves and writes after them

  /** The patches that a run of operations sends to one message. */
  function PatchesTo(ops: seq<Op>, c: Id, id: Id): seq<Message>
  {
    if ops == [] then []
    else
      (if ops[0].WriteMessage? && ops[0].chatId == c && ops[0].id == id then [ops[0].patch] else []) + PatchesTo(ops[1..], c, id)
  }

  lemma {:induction false} WrittenSince(db: Db, ops: seq<Op>, c: Id, id: Id)
    requires c in db.chats && forall op | op in ops :: op.chatId == c ==> op.WriteMessage?
    ensures var db' := Run(db, ops);
            && c in db'.chats
            && (id in db'.chats[c].messages <==> id in db.chats[c].messages || PatchesTo(ops, c, id) != [])
            && IsLastOf(MessageAt(db.chats[c], id), PatchesTo(ops, c, id), MessageAt(db'.chats[c], id))
    decreases |ops|
  {
    if ops != [] {
      var op, next := ops[0], Step(db, ops[0]);
      assert op in ops;
      if op.FollowUpOp? {
        ReplayIsApply(db, op.chatId, FollowUpWrites(HistoryOf(db, op.chatId), op.turn));
      }
      WrittenSince(next, ops[1..], c, id);
      var rest := PatchesTo(ops[1..], c, id);
      if op.chatId == c && op.id == id {
        OneUpsert(db.chats[c], id, op.patch);
        FirstThenLast(MessageAt(db.chats[c], id), op.patch, MessageAt(next.chats[c], id), rest, MessageAt(Run(db, ops).chats[c], id));
      } else {
        assert PatchesTo(ops, c, id) == rest;
      }
    }
  }

  /**
   A new chat begins with its turn, and a save of the whole document replaces it.  Whatever happens to other
   chats, each key of a message is then what that, or a later patch of the message, sent last.
   */
  lemma MadeThenWritten(db: Db, first: Op, c: Id, h: History, ops: seq<Op>, id: Id)
    requires || (first == SaveDocument(c, h) && c in db.chats)
             || (first.NewChat? && first.chatId == c && h == NewHistory(first.turn))
    requires forall op | op in ops :: op.chatId == c ==> op.WriteMessage?
    ensures var db' := Run(db, [first] + ops);
            && c in db'.chats
            && (id in db'.chats[c].messages <==> id in h.messages || PatchesTo(ops, c, id) != [])
            && IsLastOf(MessageAt(h, id), PatchesTo(ops, c, id), MessageAt(db'.chats[c], id))
  {
    var all := [first] + ops;
    assert all[1..] == ops;
    WrittenSince(Step(db, first), ops, c, id);
  }
}
