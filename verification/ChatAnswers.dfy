/**
 What one turn leaves of its messages, in the document and in the rows, and how often it charges.
 */
module ChatAnswers {
  import opened Prelude
  import opened ChatMessages
  import opened Chats
  import opened Spending
  import opened ChatTurns
  import opened ChatRuns
  import opened ChatContents

  /** An answer that has just begun under `parent`. */
  ghost predicate IsBegun(m: Message, parent: Option<Id>)
  {
    && m.role == Present("assistant") && m.done == Present(false)
    && m.parentId == Present(parent) && m.childrenIds == Present([])
    && m.parent_id == Absent && m.usage == Absent && m.infoUsage == Absent
  }

  /** m carries at most a list of children. */
  ghost predicate OnlyChildren(m: Message)
  {
    m.(childrenIds := Absent) == BLANK
  }

  lemma {:induction false} PlaceholderWritesAre(ids: seq<Id>, parent: Option<Id>)
    ensures forall w | w in PlaceholderWrites(ids, parent) :: w.0 in ids && IsBegun(w.1, parent)
    ensures forall a | a in ids :: exists m :: (a, m) in PlaceholderWrites(ids, parent)
    decreases |ids|
  {
    if ids != [] {
      PlaceholderWritesAre(ids[1..], parent);
      assert ids == [ids[0]] + ids[1..];
      assert PlaceholderWrites(ids, parent)[0].0 == ids[0];
      forall a | a in ids ensures exists m :: (a, m) in PlaceholderWrites(ids, parent) {
        if a == ids[0] {
          assert (a, PlaceholderWrites(ids, parent)[0].1) in PlaceholderWrites(ids, parent);
        } else {
          var m :| (a, m) in PlaceholderWrites(ids[1..], parent);
          assert (a, m) in PlaceholderWrites(ids, parent);
        }
      }
    }
  }

  /** A write of a turn sends the user's message, a list of children, or the beginning of an answer. */
  lemma TurnWritesAre(h: History, t: Turn, w: Write)
    requires w in FollowUpWrites(h, t)
    ensures || (Truthy(t.userId) == Some(w.0) && w.1 == t.user)
            || (OnlyChildren(w.1) && Truthy(t.userId).Some? && (w.0 in h.messages || Some(w.0) == t.userId))
            || (w.0 in TruthyIds(t.assistants) && IsBegun(w.1, t.userId))
  {
    PlaceholderWritesAre(TruthyIds(t.assistants), t.userId);
    var h1 := Apply(h, UserWrite(t));
    StoredIsLastSent(h, UserWrite(t), w.0);
    SentIsWritten(UserWrite(t), w.0);
    if w in GrandparentWrite(h1, t) {
      assert w.0 in h1.messages;
      if w.0 !in h.messages {
        var sent := SentTo(UserWrite(t), w.0);
        assert sent[0] in sent;
      }
    }
  }

  lemma EndsWithAnswers(h: History, t: Turn)
    ensures exists ws :: FollowUpWrites(h, t) == ws + PlaceholderWrites(TruthyIds(t.assistants), t.userId)
  {
    var h1 := Apply(h, UserWrite(t));
    var h2 := Apply(h1, GrandparentWrite(h1, t));
    assert FollowUpWrites(h, t)
        == UserWrite(t) + GrandparentWrite(h1, t) + FanOutWrite(h2, t) + PlaceholderWrites(TruthyIds(t.assistants), t.userId);
  }

  /**
   After a follow-up turn every answer, whatever was stored under its id, is an assistant's
   message, not done, without children and under the user's message; a new one carries nothing else.
   */
  lemma AnswersAreStored(h: History, t: Turn, a: Id)
    requires a in TruthyIds(t.assistants)
    ensures var f := FollowUp(h, t).messages;
            && a in f && f[a].role == Present("assistant") && f[a].done == Present(false)
            && f[a].parentId == Present(t.userId) && f[a].childrenIds == Present([])
            && (a !in h.messages && Some(a) != t.userId ==> IsBegun(f[a], t.userId))
  {
    var answers := PlaceholderWrites(TruthyIds(t.assistants), t.userId);
    EndsWithAnswers(h, t);
    var ws :| FollowUpWrites(h, t) == ws + answers;
    ApplyConcat(h, ws, answers);
    var g := Apply(h, ws);
    PlaceholderWritesAre(TruthyIds(t.assistants), t.userId);
    SentIsWritten(answers, a);
    StoredIsLastSent(g, answers, a);
    var m :| (a, m) in answers;
    var sent := SentTo(answers, a);
    assert m in sent;
    AllSend(MessageAt(g, a).role, sent, RoleKey, "assistant");
    AllSend(MessageAt(g, a).done, sent, DoneKey, false);
    AllSend(MessageAt(g, a).parentId, sent, ParentIdKey, t.userId);
    AllSend(MessageAt(g, a).childrenIds, sent, ChildrenKey, []);
    if a !in h.messages && Some(a) != t.userId {
      NewAnswerIsBegun(h, t, a);
    }
  }

  lemma NewAnswerIsBegun(h: History, t: Turn, a: Id)
    requires a in TruthyIds(t.assistants) && a !in h.messages && Some(a) != t.userId
    ensures var m := MessageAt(FollowUp(h, t), a); m.parent_id == Absent && m.usage == Absent && m.infoUsage == Absent
    ensures forall m | m in SentTo(FollowUpWrites(h, t), a) :: IsBegun(m, t.userId)
  {
    var ws := FollowUpWrites(h, t);
    StoredIsLastSent(h, ws, a);
    SentIsWritten(ws, a);
    forall m | m in SentTo(ws, a) ensures IsBegun(m, t.userId) {
      TurnWritesAre(h, t, (a, m));
    }
    NothingSent(BLANK.parent_id, SentTo(ws, a), ParentKey);
    NothingSent(BLANK.usage, SentTo(ws, a), UsageKey);
    NothingSent(BLANK.infoUsage, SentTo(ws, a), InfoUsageKey);
  }

  /** Apart from the user's message and the answers a turn changes no message but for lists of children. */
  lemma TurnKeepsContents(h: History, t: Turn, id: Id)
    requires id !in TruthyIds(t.assistants) && Truthy(t.userId) != Some(id)
    ensures var f := FollowUp(h, t).messages;
            && (id in f <==> id in h.messages)
            && (id in f ==> f[id].(childrenIds := Absent) == h.messages[id].(childrenIds := Absent))
  {
    var ws := FollowUpWrites(h, t);
    StoredIsLastSent(h, ws, id);
    SentIsWritten(ws, id);
    var sent, before := SentTo(ws, id), MessageAt(h, id);
    forall m | m in sent ensures OnlyChildren(m) && id in h.messages {
      TurnWritesAre(h, t, (id, m));
    }
    assert sent != [] ==> sent[0] in sent;
    NothingSent(before.parentId, sent, ParentIdKey);
    NothingSent(before.parent_id, sent, ParentKey);
    NothingSent(before.role, sent, RoleKey);
    NothingSent(before.done, sent, DoneKey);
    NothingSent(before.usage, sent, UsageKey);
    NothingSent(before.infoUsage, sent, InfoUsageKey);
  }

  /** The user's message is stored as it was sent, over what was stored before. */
  lemma UserIsStored(h: History, t: Turn)
    requires Truthy(t.userId).Some? && t.userId.value !in TruthyIds(t.assistants)
    ensures var u, m := MessageAt(h, t.userId.value), MessageAt(FollowUp(h, t), t.userId.value);
            && t.userId.value in FollowUp(h, t).messages
            && m.role == (if t.user.role.Present? then t.user.role else u.role)
            && m.done == (if t.user.done.Present? then t.user.done else u.done)
            && m.usage == (if t.user.usage.Present? then t.user.usage else u.usage)
            && m.infoUsage == (if t.user.infoUsage.Present? then t.user.infoUsage else u.infoUsage)
  {
    var id, h1 := t.userId.value, Upsert(h, t.userId.value, t.user);
    assert UserWrite(t)[1..] == [];
    var rest := FollowUpWrites(h, t)[1..];
    assert FollowUpWrites(h, t) == [(id, t.user)] + rest;
    StoredIsLastSent(h1, rest, id);
    SentIsWritten(rest, id);
    var sent, before := SentTo(rest, id), MessageAt(h1, id);
    forall m | m in sent ensures OnlyChildren(m) || m == t.user {
      assert (id, m) in FollowUpWrites(h, t);
      TurnWritesAre(h, t, (id, m));
    }
    KeptOrSentAgain(before.role, sent, t.user, RoleKey);
    KeptOrSentAgain(before.done, sent, t.user, DoneKey);
    KeptOrSentAgain(before.usage, sent, t.user, UsageKey);
    KeptOrSentAgain(before.infoUsage, sent, t.user, InfoUsageKey);
  }

  lemma {:induction false} KeptOrSentAgain<T>(before: Field<T>, sent: seq<Message>, user: Message, key: Message -> Field<T>)
    requires forall m | m in sent :: key(m).Absent? || m == user
    requires key(user).Present? ==> before == key(user)
    ensures LastSent(before, sent, key) == before
    decreases |sent|
  {
    if sent != [] {
      assert sent[|sent| - 1] in sent;
      KeptOrSentAgain(before, sent[..|sent| - 1], user, key);
    }
  }

  // ------------------------------------------------------------------ rows

  /** The row of a message is written with the message as merged so far, once for each patch sent to it. */
  lemma {:induction false} ReplayedRow(db: Db, chatId: Id, ws: seq<Write>, id: Id)
    requires chatId in db.chats
    ensures var h, key := db.chats[chatId], Key(chatId, id);
            var stored := if id in h.messages then Some(h.messages[id]) else None;
            RowAt(Replay(db, chatId, ws).rows, key)
            == RowAfter(RowAt(db.rows, key), chatId, Merged(stored, SentTo(ws, id)))
    decreases |ws|
  {
    if ws != [] {
      var h, key := db.chats[chatId], Key(chatId, id);
      var next := UpsertMessage(db, chatId, ws[0].0, ws[0].1);
      var stored := if id in h.messages then Some(h.messages[id]) else None;
      ReplayedRow(next, chatId, ws[1..], id);
      StripKey(chatId, id);
      StripKey(chatId, ws[0].0);
      if ws[0].0 == id {
        var written := Written(h, id, ws[0].1);
        var all := Merged(stored, SentTo(ws, id));
        assert SentTo(ws, id)[1..] == SentTo(ws[1..], id);
        assert all == [written] + Merged(Some(written), SentTo(ws[1..], id));
        assert all[1..] == Merged(Some(written), SentTo(ws[1..], id));
        assert RowAt(next.rows, key) == Some(WrittenRow(RowAt(db.rows, key), chatId, written));
      } else {
        assert SentTo(ws, id) == SentTo(ws[1..], id);
        assert RowAt(next.rows, key) == RowAt(db.rows, key);
      }
    }
  }

  lemma {:induction false} MergedBegun(m: Option<Message>, sent: seq<Message>, parent: Option<Id>)
    requires forall s | s in sent :: IsBegun(s, parent)
    requires m.Some? ==> IsBegun(m.value, parent)
    ensures forall i | 0 <= i < |sent| :: IsBegun(Merged(m, sent)[i], parent)
    decreases |sent|
  {
    if sent != [] {
      assert sent[0] in sent;
      var next := if m.Some? then Merge(m.value, sent[0]) else sent[0];
      MergedBegun(Some(next), sent[1..], parent);
      assert forall i | 1 <= i < |sent| :: Merged(m, sent)[i] == Merged(Some(next), sent[1..])[i - 1];
    }
  }

  /** An assistant's row under the user's message, not done and without usage. */
  ghost predicate IsBegunRow(r: Row, chatId: Id, parent: Option<Id>)
  {
    r.chatId == chatId && r.role == "assistant" && !r.done && r.usage.None? && Truthy(r.parent) == Truthy(parent)
  }

  lemma {:induction false} BegunWrites(row: Option<Row>, chatId: Id, writes: seq<Message>, parent: Option<Id>)
    requires forall i | 0 <= i < |writes| :: IsBegun(writes[i], parent)
    requires row.Some? ==> IsBegunRow(row.value, chatId, parent)
    ensures writes != [] || row.Some? ==>
              RowAfter(row, chatId, writes).Some? && IsBegunRow(RowAfter(row, chatId, writes).value, chatId, parent)
    ensures Charged(row, chatId, writes) == 0
    decreases |writes|
  {
    if writes != [] {
      assert IsBegun(writes[0], parent);
      BegunWrites(Some(WrittenRow(row, chatId, writes[0])), chatId, writes[1..], parent);
    }
  }

  /** The row of a new answer is the assistant's, not done, without usage, and none of its writes charged. */
  lemma AnswersHaveRows(db: Db, chatId: Id, t: Turn, a: Id)
    requires chatId in db.chats && a in TruthyIds(t.assistants) && a !in db.chats[chatId].messages && Some(a) != t.userId
    requires Key(chatId, a) !in db.rows
    ensures var rows := FollowUpTurn(db, chatId, t).rows;
            Key(chatId, a) in rows && IsBegunRow(rows[Key(chatId, a)], chatId, t.userId)
    ensures Charged(None, chatId, Merged(None, SentTo(FollowUpWrites(db.chats[chatId], t), a))) == 0
  {
    var h := db.chats[chatId];
    var ws := FollowUpWrites(h, t);
    var sent := SentTo(ws, a);
    ReplayedRow(db, chatId, ws, a);
    NewAnswerIsBegun(h, t, a);
    MergedBegun(None, sent, t.userId);
    BegunWrites(None, chatId, Merged(None, sent), t.userId);
    AnswersAreStored(h, t, a);
    StoredIsLastSent(h, ws, a);
  }

  /** A turn writes no row but those of the user's message, its parent and the answers. */
  lemma OtherRowsStay(db: Db, chatId: Id, t: Turn, id: Id)
    requires chatId in db.chats && id !in TruthyIds(t.assistants) && Some(id) != t.userId && Some(id) != ParentOf(t.user)
    ensures RowAt(FollowUpTurn(db, chatId, t).rows, Key(chatId, id)) == RowAt(db.rows, Key(chatId, id))
  {
    var h := db.chats[chatId];
    var ws := FollowUpWrites(h, t);
    ReplayedRow(db, chatId, ws, id);
    SentIsWritten(ws, id);
    PlaceholderWritesAre(TruthyIds(t.assistants), t.userId);
    assert SentTo(ws, id) != [] ==> (id, SentTo(ws, id)[0]) in ws by {
      assert SentTo(ws, id) != [] ==> SentTo(ws, id)[0] in SentTo(ws, id);
    }
  }

  // -------------------------------------------------------------- new chats

  /** The user's message as sent, with the answers as its children, and each answer just begun. */
  ghost predicate HoldsTurn(m: map<Id, Message>, t: Turn)
  {
    var ids := TruthyIds(t.assistants);
    && m.Keys == Elems(ids) + (if Truthy(t.userId).Some? then {t.userId.value} else {})
    && (forall a | a in ids :: IsBegun(m[a], t.userId))
    && (Truthy(t.userId).Some? && t.userId.value !in ids ==>
          var u := m[t.userId.value];
          u.childrenIds == Present(ids) && u.(childrenIds := t.user.childrenIds) == t.user)
  }

  lemma NewMessagesHoldTurn(t: Turn)
    ensures HoldsTurn(NewMessages(t), t)
  {
  }

  lemma BegunMessageHasRow(db: Db, chatId: Id, messages: map<Id, Message>, a: Id, parent: Option<Id>)
    requires WellKeyed(db) && chatId !in db.chats && |chatId| == UUID_LENGTH && a in messages && IsBegun(messages[a], parent)
    ensures var row := RowOf(Backfill(db.rows, chatId, messages), chatId, a);
            row.Some? && IsBegunRow(row.value, chatId, parent) && !Charges(None, messages[a])
  {
    BackfillNew(db, chatId, messages, a);
    assert HasRole(messages[a]) && GetUsage(messages[a]).None?;
  }

  /** A new chat's document holds the turn, the answers' rows say the same, and writing these charges nothing. */
  lemma NewChatIsStored(db: Db, chatId: Id, t: Turn)
    requires WellKeyed(db) && chatId !in db.chats && |chatId| == UUID_LENGTH
    ensures var db' := InsertNewChat(db, chatId, NewHistory(t));
            var m := db'.chats[chatId].messages;
            && HoldsTurn(m, t)
            && forall a | a in TruthyIds(t.assistants) ::
                 var row := RowOf(db'.rows, chatId, a);
                 row.Some? && IsBegunRow(row.value, chatId, t.userId) && !Charges(None, m[a])
  {
    NewMessagesHoldTurn(t);
    forall a | a in TruthyIds(t.assistants)
      ensures var row := RowOf(Backfill(db.rows, chatId, NewMessages(t)), chatId, a);
              row.Some? && IsBegunRow(row.value, chatId, t.userId) && !Charges(None, NewMessages(t)[a])
    {
      BegunMessageHasRow(db, chatId, NewMessages(t), a, t.userId);
    }
  }

  // ---------------------------------------------------------------- charges

  /** How many of the writes of a run charge the user. */
  function ChargesIn(db: Db, chatId: Id, ws: seq<Write>): nat
    requires chatId in db.chats
    decreases |ws|
  {
    if ws == [] then 0
    else
      var written := Written(db.chats[chatId], ws[0].0, ws[0].1);
      (if Charges(RowAt(db.rows, Key(chatId, ws[0].0)), written) then 1 else 0)
      + ChargesIn(UpsertMessage(db, chatId, ws[0].0, ws[0].1), chatId, ws[1..])
  }

  lemma {:induction false} ChargesConcat(db: Db, chatId: Id, a: seq<Write>, b: seq<Write>)
    requires chatId in db.chats
    ensures chatId in Replay(db, chatId, a).chats
    ensures ChargesIn(db, chatId, a + b) == ChargesIn(db, chatId, a) + ChargesIn(Replay(db, chatId, a), chatId, b)
    decreases |a|
  {
    if a == [] {
      assert a + b == b;
    } else {
      assert (a + b)[1..] == a[1..] + b;
      ChargesConcat(UpsertMessage(db, chatId, a[0].0, a[0].1), chatId, a[1..], b);
    }
  }

  /** A message whose write charges nothing, whatever row it finds: no report, and not done or not an assistant's. */
  predicate IsSilent(m: Message)
  {
    GetUsage(m).None? && (!IsDone(m) || (m.role.Present? && m.role.value != "assistant"))
  }

  lemma {:induction false} AnswersChargeNothing(db: Db, chatId: Id, ids: seq<Id>, parent: Option<Id>)
    requires chatId in db.chats && NoDup(ids) && forall a | a in ids :: a !in db.chats[chatId].messages
    ensures ChargesIn(db, chatId, PlaceholderWrites(ids, parent)) == 0
    decreases |ids|
  {
    if ids != [] {
      var ws := PlaceholderWrites(ids, parent);
      var next := UpsertMessage(db, chatId, ws[0].0, ws[0].1);
      assert ws[0] in ws;
      PlaceholderWritesAre(ids, parent);
      assert IsSilent(ws[0].1);
      assert ids == [ids[0]] + ids[1..] && ids[0] !in ids[1..] && NoDup(ids[1..]);
      AnswersChargeNothing(next, chatId, ids[1..], parent);
    }
  }

  /** The store once the user's message is stored, and once it is linked under its parent. */
  function UserStored(db: Db, chatId: Id, t: Turn): Db
  {
    Replay(db, chatId, UserWrite(t))
  }

  lemma OneWriteCharges(db: Db, chatId: Id, w: Write)
    requires chatId in db.chats
    ensures ChargesIn(db, chatId, [w])
            == if Charges(RowAt(db.rows, Key(chatId, w.0)), Written(db.chats[chatId], w.0, w.1)) then 1 else 0
    ensures Replay(db, chatId, [w]) == UpsertMessage(db, chatId, w.0, w.1)
  {
    assert [w][1..] == [];
  }

  /** Whether an upsert of the message as it is would charge, given its row. */
  predicate IsRecharged(row: Option<Row>, m: Message)
  {
    var isAssistants := m.role.GetOr(RoleOf(row)) == "assistant";
    if row.None? then isAssistants && (IsDone(m) || RawReport(m) != map[])
    else IsDone(m) && !HoldsTokens(row.value) && (isAssistants || RawReport(m) != map[])
  }

  /** A turn as the client sends it: a new user's message, said to be the user's, without a report. */
  ghost predicate IsPlain(h: History, t: Turn)
  {
    && FreshAssistants(h.messages, t)
    && Truthy(t.userId).Some? && t.userId.value !in h.messages
    && t.user.role == Present("user") && RawReport(t.user) == map[]
  }

  /** One more child for a stored message is charged exactly when an upsert of the message as it is would be. */
  lemma ChildrenWriteCharges(db: Db, chatId: Id, id: Id, ids: seq<Id>)
    requires chatId in db.chats && id in db.chats[chatId].messages
    ensures ChargesIn(db, chatId, [(id, ChildrenPatch(ids))])
            == if IsRecharged(RowAt(db.rows, Key(chatId, id)), db.chats[chatId].messages[id]) then 1 else 0
  {
    OneWriteCharges(db, chatId, (id, ChildrenPatch(ids)));
    var m, written := db.chats[chatId].messages[id], Written(db.chats[chatId], id, ChildrenPatch(ids));
    assert GetUsage(written) == GetUsage(m);
  }

  lemma UserWriteCharges(db: Db, chatId: Id, t: Turn)
    requires chatId in db.chats && IsPlain(db.chats[chatId], t)
    ensures ChargesIn(db, chatId, UserWrite(t)) == 0
    ensures UserStored(db, chatId, t) == UpsertMessage(db, chatId, t.userId.value, t.user)
  {
    OneWriteCharges(db, chatId, (t.userId.value, t.user));
    assert IsSilent(t.user);
  }

  lemma ParentWriteCharges(db: Db, chatId: Id, t: Turn)
    requires chatId in db.chats && IsPlain(db.chats[chatId], t)
    ensures var h, db1 := db.chats[chatId], UserStored(db, chatId, t);
            && ChargesIn(db, chatId, UserWrite(t)) == 0
            && chatId in db1.chats && db1.chats[chatId] == Upsert(h, t.userId.value, t.user)
            && var p := ParentOf(t.user);
               ChargesIn(db1, chatId, GrandparentWrite(db1.chats[chatId], t))
               == if && p.Some? && p.value in h.messages && t.userId.value !in ChildrenOf(h.messages[p.value])
                     && IsRecharged(RowAt(db.rows, Key(chatId, p.value)), h.messages[p.value]) then 1 else 0
  {
    var h, db1, u := db.chats[chatId], UserStored(db, chatId, t), t.userId.value;
    UserWriteCharges(db, chatId, t);
    var w2 := GrandparentWrite(db1.chats[chatId], t);
    if w2 != [] {
      var p := w2[0].0;
      StripKey(chatId, p);
      StripKey(chatId, u);
      ChildrenWriteCharges(db1, chatId, p, ChildrenOf(db1.chats[chatId].messages[p]) + [u]);
      assert p != u ==> RowAt(db1.rows, Key(chatId, p)) == RowAt(db.rows, Key(chatId, p));
    }
  }

  lemma FanOutChargesNothing(db: Db, chatId: Id, t: Turn)
    requires chatId in db.chats && Truthy(t.userId).Some? && t.userId.value in db.chats[chatId].messages
    requires IsSilent(db.chats[chatId].messages[t.userId.value])
    requires db.chats[chatId].messages[t.userId.value].role == Present("user")
    ensures ChargesIn(db, chatId, FanOutWrite(db.chats[chatId], t)) == 0
  {
    var h, w := db.chats[chatId], FanOutWrite(db.chats[chatId], t);
    if w != [] {
      assert w == [w[0]];
      OneWriteCharges(db, chatId, w[0]);
      var written := Written(h, w[0].0, w[0].1);
      assert GetUsage(written) == GetUsage(h.messages[w[0].0]) && IsSilent(written);
    }
  }

  /** Linking the user's message leaves it as it was but for its children, and adds no message. */
  lemma LinkKeepsUser(h: History, t: Turn)
    requires Truthy(t.userId).Some?
    ensures var u, h1 := t.userId.value, Upsert(h, t.userId.value, t.user);
            var h2 := Apply(h1, GrandparentWrite(h1, t));
            && h2.messages.Keys == h.messages.Keys + {u}
            && h2.messages[u].(childrenIds := Absent) == h1.messages[u].(childrenIds := Absent)
  {
    var h1 := Upsert(h, t.userId.value, t.user);
    var w2 := GrandparentWrite(h1, t);
    if w2 != [] {
      assert w2[1..] == [];
    }
  }

  /**
   A turn charges for nothing it brings, but once more for the answer it replies to, exactly when
   that message is re-saved with the new child and is done, an assistant's and without tokens on its row.
   */
  lemma TurnRechargesParentIff(db: Db, chatId: Id, t: Turn)
    requires chatId in db.chats && IsPlain(db.chats[chatId], t)
    ensures var h, p := db.chats[chatId], ParentOf(t.user);
            ChargesIn(db, chatId, FollowUpWrites(h, t))
            == if && p.Some? && p.value in h.messages && t.userId.value !in ChildrenOf(h.messages[p.value])
                  && IsRecharged(RowAt(db.rows, Key(chatId, p.value)), h.messages[p.value]) then 1 else 0
  {
    var h, u, ids := db.chats[chatId], t.userId.value, TruthyIds(t.assistants);
    var w1 := UserWrite(t);
    assert w1[1..] == [];
    var h1 := Apply(h, w1);
    var w2 := GrandparentWrite(h1, t);
    var h2 := Apply(h1, w2);
    var w3 := FanOutWrite(h2, t);
    var w4 := PlaceholderWrites(ids, t.userId);
    var db1 := Replay(db, chatId, w1);
    var db2 := Replay(db1, chatId, w2);
    var db3 := Replay(db2, chatId, w3);
    ReplayIsApply(db, chatId, w1);
    ReplayIsApply(db1, chatId, w2);
    ReplayIsApply(db2, chatId, w3);
    ParentWriteCharges(db, chatId, t);
    LinkKeepsUser(h, t);
    assert GetUsage(h2.messages[u]) == GetUsage(t.user);
    FanOutChargesNothing(db2, chatId, t);
    FanOutShape(h2, t);
    AnswersChargeNothing(db3, chatId, ids, t.userId);
    ReplayConcat(db, chatId, w1, w2);
    ReplayConcat(db, chatId, w1 + w2, w3);
    ChargesConcat(db, chatId, w1, w2);
    ChargesConcat(db, chatId, w1 + w2, w3);
    ChargesConcat(db, chatId, w1 + w2 + w3, w4);
  }
}
