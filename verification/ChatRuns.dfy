/**
 Whole runs over the two stores: new chats, follow-up turns and single message
 writes.  The blob and the rows of a chat stay in agreement.
 */
module ChatRuns {
  import opened Prelude
  import opened Forest
  import opened ChatMessages
  import opened Chats
  import opened ChatTurns

  // -------------------------------------------------- turns on the store

  function Replay(db: Db, chatId: Id, ws: seq<Write>): Db
    decreases |ws|
  {
    if ws == [] then db else Replay(UpsertMessage(db, chatId, ws[0].0, ws[0].1), chatId, ws[1..])
  }

  lemma {:induction false} ReplayConcat(db: Db, chatId: Id, a: seq<Write>, b: seq<Write>)
    ensures Replay(db, chatId, a + b) == Replay(Replay(db, chatId, a), chatId, b)
    decreases |a|
  {
    if a == [] {
      assert a + b == b;
    } else {
      assert (a + b)[1..] == a[1..] + b;
      ReplayConcat(UpsertMessage(db, chatId, a[0].0, a[0].1), chatId, a[1..], b);
    }
  }

  /** On the blob of its chat, replaying writes is applying them. */
  lemma {:induction false} ReplayIsApply(db: Db, chatId: Id, ws: seq<Write>)
    ensures chatId !in db.chats ==> Replay(db, chatId, ws) == db
    ensures chatId in db.chats ==> Replay(db, chatId, ws).chats == db.chats[chatId := Apply(db.chats[chatId], ws)]
    decreases |ws|
  {
    if ws != [] {
      ReplayIsApply(UpsertMessage(db, chatId, ws[0].0, ws[0].1), chatId, ws[1..]);
    }
  }

  const NO_HISTORY := History(None, map[])

  function HistoryOf(db: Db, chatId: Id): History
  {
    if chatId in db.chats then db.chats[chatId] else NO_HISTORY
  }

  function FollowUpTurn(db: Db, chatId: Id, t: Turn): Db
  {
    Replay(db, chatId, FollowUpWrites(HistoryOf(db, chatId), t))
  }

  method AppendMissingIds(children: seq<Id>, ids: seq<Id>) returns (all: seq<Id>)
    ensures all == AppendMissing(children, ids)
  {
    all := children;
    var i := 0;
    while i < |ids|
      invariant 0 <= i <= |ids|
      invariant AppendMissing(all, ids[i..]) == AppendMissing(children, ids)
    {
      if ids[i] !in all {
        all := all + [ids[i]];
      }
      assert ids[i..][1..] == ids[i + 1..];
      i := i + 1;
    }
  }

  /** Store the user's message and link it under its parent. */
  method SaveUserMessage(store: ChatTable, chatId: Id, t: Turn)
    requires chatId in store.chats
    modifies store, store.table
    ensures var h := old(store.chats[chatId]);
            store.State() == Replay(old(store.State()), chatId,
                                    UserWrite(t) + GrandparentWrite(Apply(h, UserWrite(t)), t))
  {
    ghost var db := store.State();
    ghost var w1 := UserWrite(t);
    if t.userId.Some? && t.userId.value != "" {
      var u := t.userId.value;
      assert w1[1..] == [];
      var _ := store.UpsertMessageToChat(chatId, u, t.user, true, true);
      var grandparentId := ParentOf(t.user);
      if grandparentId.Some? && grandparentId.value in store.chats[chatId].messages {
        var p := grandparentId.value;
        var childIds := ChildrenOf(store.chats[chatId].messages[p]);
        if u !in childIds {
          ghost var db1 := store.State();
          var _ := store.UpsertMessageToChat(chatId, p, ChildrenPatch(childIds + [u]), true, true);
          ghost var w2 := GrandparentWrite(db1.chats[chatId], t);
          assert w2[1..] == [];
          assert store.State() == Replay(db1, chatId, w2);
        }
      }
    }
    ReplayConcat(db, chatId, w1, GrandparentWrite(Apply(db.chats[chatId], w1), t));
    ReplayIsApply(db, chatId, w1);
  }

  /** List every new answer under the user's message. */
  method LinkAssistants(store: ChatTable, chatId: Id, t: Turn)
    requires chatId in store.chats
    modifies store, store.table
    ensures store.State() == Replay(old(store.State()), chatId, FanOutWrite(old(store.chats[chatId]), t))
  {
    var ids := TruthyIds(t.assistants);
    if t.userId.Some? && t.userId.value != "" && ids != [] {
      var u := t.userId.value;
      if u in store.chats[chatId].messages {
        var childIds := AppendMissingIds(ChildrenOf(store.chats[chatId].messages[u]), ids);
        assert FanOutWrite(store.chats[chatId], t)[1..] == [];
        var _ := store.UpsertMessageToChat(chatId, u, ChildrenPatch(childIds), true, true);
      }
    }
  }

  lemma NextPlaceholder(assistants: seq<Option<Id>>, parent: Option<Id>)
    requires assistants != []
    ensures var rest := PlaceholderWrites(TruthyIds(assistants[1..]), parent);
            PlaceholderWrites(TruthyIds(assistants), parent)
            == if Truthy(assistants[0]).Some? then [(assistants[0].value, Placeholder(parent))] + rest else rest
  {
    var others := TruthyIds(assistants[1..]);
    if Truthy(assistants[0]).Some? {
      var ids := [assistants[0].value] + others;
      assert TruthyIds(assistants) == ids && ids[0] == assistants[0].value && ids[1..] == others;
    } else {
      assert TruthyIds(assistants) == others;
    }
  }

  lemma ReplayFirst(db: Db, chatId: Id, id: Id, patch: Message, ws: seq<Write>)
    ensures Replay(db, chatId, [(id, patch)] + ws) == Replay(UpsertMessage(db, chatId, id, patch), chatId, ws)
  {
  }

  lemma NextWrites(db: Db, chatId: Id, assistants: seq<Option<Id>>, i: nat, parent: Option<Id>)
    requires i < |assistants|
    ensures Replay(db, chatId, PlaceholderWrites(TruthyIds(assistants[i..]), parent))
            == Replay(if Truthy(assistants[i]).Some? then UpsertMessage(db, chatId, assistants[i].value, Placeholder(parent)) else db,
                      chatId, PlaceholderWrites(TruthyIds(assistants[i + 1..]), parent))
  {
    assert assistants[i..][1..] == assistants[i + 1..];
    NextPlaceholder(assistants[i..], parent);
    if Truthy(assistants[i]).Some? {
      ReplayFirst(db, chatId, assistants[i].value, Placeholder(parent), PlaceholderWrites(TruthyIds(assistants[i + 1..]), parent));
    }
  }

  method SavePlaceholders(store: ChatTable, chatId: Id, t: Turn)
    modifies store, store.table
    ensures store.State() == Replay(old(store.State()), chatId, PlaceholderWrites(TruthyIds(t.assistants), t.userId))
  {
    ghost var goal := Replay(store.State(), chatId, PlaceholderWrites(TruthyIds(t.assistants), t.userId));
    var i := 0;
    assert t.assistants[0..] == t.assistants;
    while i < |t.assistants|
      invariant 0 <= i <= |t.assistants|
      invariant Replay(store.State(), chatId, PlaceholderWrites(TruthyIds(t.assistants[i..]), t.userId)) == goal
    {
      NextWrites(store.State(), chatId, t.assistants, i, t.userId);
      if t.assistants[i].Some? && t.assistants[i].value != "" {
        var _ := store.UpsertMessageToChat(chatId, t.assistants[i].value, Placeholder(t.userId), true, true);
      }
      i := i + 1;
    }
  }

  /** The history part of a follow-up request. */
  method CompleteFollowUp(store: ChatTable, chatId: Id, t: Turn)
    modifies store, store.table
    ensures store.State() == FollowUpTurn(old(store.State()), chatId, t)
  {
    ghost var db := store.State();
    if chatId !in store.chats {
      ReplayIsApply(db, chatId, FollowUpWrites(NO_HISTORY, t));
      return;
    }
    ghost var h := store.chats[chatId];
    ghost var w12 := UserWrite(t) + GrandparentWrite(Apply(h, UserWrite(t)), t);
    SaveUserMessage(store, chatId, t);
    ReplayIsApply(db, chatId, w12);
    ApplyConcat(h, UserWrite(t), GrandparentWrite(Apply(h, UserWrite(t)), t));
    ghost var w3 := FanOutWrite(store.chats[chatId], t);
    LinkAssistants(store, chatId, t);
    ReplayConcat(db, chatId, w12, w3);
    SavePlaceholders(store, chatId, t);
    ReplayConcat(db, chatId, w12 + w3, PlaceholderWrites(TruthyIds(t.assistants), t.userId));
  }

  method AddPlaceholders(first: map<Id, Message>, ids: seq<Id>, parent: Option<Id>) returns (messages: map<Id, Message>)
    ensures messages == first + map a | a in ids :: Placeholder(parent)
  {
    messages := first;
    var placeholder := Placeholder(parent);
    var i := 0;
    while i < |ids|
      invariant 0 <= i <= |ids|
      invariant messages.Keys == first.Keys + Elems(ids[..i])
      invariant forall k | k in messages :: messages[k] == if k in ids[..i] then placeholder else first[k]
    {
      messages := messages[ids[i] := placeholder];
      assert ids[..i + 1] == ids[..i] + [ids[i]];
      i := i + 1;
    }
    assert ids[..i] == ids;
  }

  /** The history part of a request that opens a chat. */
  method CompleteNewChat(store: ChatTable, chatId: Id, t: Turn)
    modifies store, store.table
    ensures store.State() == InsertNewChat(old(store.State()), chatId, NewHistory(t))
  {
    var ids := TruthyIds(t.assistants);
    var messages: map<Id, Message> := map[];
    if t.userId.Some? && t.userId.value != "" {
      messages := messages[t.userId.value := t.user.(childrenIds := Present(ids))];
    }
    messages := AddPlaceholders(messages, ids, t.userId);
    store.InsertChat(chatId, History(if ids != [] then Some(ids[0]) else t.userId, messages));
  }

  // -------------------------------------------------------- agreement

  /** The row that stands for a message of the chat. */
  function RowOf(rows: Rows, chatId: Id, id: Id): Option<Row>
  {
    var k := Key(chatId, id);
    if k in rows && rows[k].chatId == chatId then Some(rows[k]) else None
  }

  ghost predicate AgreesAt(h: History, rows: Rows, chatId: Id, id: Id)
  {
    var row := RowOf(rows, chatId, id);
    && (id in h.messages <==> row.Some?)
    && (id in h.messages ==> Truthy(row.value.parent) == ParentOf(h.messages[id]) && h.messages[id].parent_id.Absent?)
  }

  /** Blob and rows hold the same messages with the same parents. */
  ghost predicate Agrees(h: History, rows: Rows, chatId: Id)
  {
    forall id :: AgreesAt(h, rows, chatId, id)
  }

  /** Chats are named by UUIDs and every row belongs to one, under its own key. */
  ghost predicate WellKeyed(db: Db)
  {
    && (forall c | c in db.chats :: |c| == UUID_LENGTH)
    && (forall k | k in db.rows :: db.rows[k].chatId in db.chats && db.rows[k].chatId + "-" <= k)
  }

  ghost predicate Consistent(db: Db)
  {
    && WellKeyed(db)
    && forall c | c in db.chats :: Agrees(db.chats[c], db.rows, c)
  }

  /** A write that leaves the parent of a stored message alone. */
  ghost predicate StableWrite(h: History, id: Id, patch: Message)
  {
    id in h.messages && patch.parentId.Present? ==> ParentOf(patch) == ParentOf(h.messages[id])
  }

  lemma KeyOwner(db: Db, chatId: Id, id: Id)
    requires WellKeyed(db) && |chatId| == UUID_LENGTH && Key(chatId, id) in db.rows
    ensures db.rows[Key(chatId, id)].chatId == chatId
  {
    var k := Key(chatId, id);
    var owner := db.rows[k].chatId;
    assert owner == k[..UUID_LENGTH] && chatId == k[..UUID_LENGTH];
  }

  /** Writing a row of one chat leaves the rows of every other chat alone. */
  lemma UpsertRowElsewhere(db: Db, chatId: Id, id: Id, m: Message, c: Id, other: Id)
    requires WellKeyed(db) && |chatId| == |c| == UUID_LENGTH && (c != chatId || other != id)
    ensures RowOf(UpsertRow(db.rows, chatId, id, m), c, other) == RowOf(db.rows, c, other)
  {
    if Key(chatId, id) == Key(c, other) {
      KeysOfEqualLengthChatsDiffer(chatId, id, c, other);
    }
  }

  lemma WriteKeepsWellKeyed(db: Db, chatId: Id, id: Id, patch: Message)
    requires WellKeyed(db)
    ensures WellKeyed(UpsertMessage(db, chatId, id, patch))
  {
  }

  /** Any write to a chat keeps every other chat's agreement. */
  lemma WriteKeepsOthers(db: Db, chatId: Id, id: Id, patch: Message, c: Id)
    requires Consistent(db) && c in db.chats && c != chatId
    ensures var db' := UpsertMessage(db, chatId, id, patch); c in db'.chats && Agrees(db'.chats[c], db'.rows, c)
  {
    if chatId in db.chats {
      var h' := Upsert(db.chats[chatId], id, patch);
      forall other ensures AgreesAt(db.chats[c], UpsertRow(db.rows, chatId, id, h'.messages[id]), c, other) {
        assert AgreesAt(db.chats[c], db.rows, c, other);
        UpsertRowElsewhere(db, chatId, id, h'.messages[id], c, other);
      }
    }
  }

  /**
   A write that does not use the row store's own `parent_id` key keeps its chat in
   agreement exactly when it leaves the stored parent alone: a changed `parentId`
   reaches the blob but never the row.
   */
  lemma WriteKeepsAgreementIff(db: Db, chatId: Id, id: Id, patch: Message)
    requires Consistent(db) && chatId in db.chats && patch.parent_id.Absent?
    ensures var db' := UpsertMessage(db, chatId, id, patch);
            Agrees(db'.chats[chatId], db'.rows, chatId) <==> StableWrite(db.chats[chatId], id, patch)
  {
    var h := db.chats[chatId];
    var db' := UpsertMessage(db, chatId, id, patch);
    var h' := db'.chats[chatId];
    WrittenAgreesIff(db, chatId, id, patch);
    forall other | other != id ensures AgreesAt(h', db'.rows, chatId, other) {
      assert AgreesAt(h, db.rows, chatId, other);
      UpsertRowElsewhere(db, chatId, id, h'.messages[id], chatId, other);
    }
  }

  lemma WrittenAgreesIff(db: Db, chatId: Id, id: Id, patch: Message)
    requires Consistent(db) && chatId in db.chats && patch.parent_id.Absent?
    ensures var db' := UpsertMessage(db, chatId, id, patch);
            AgreesAt(db'.chats[chatId], db'.rows, chatId, id) <==> StableWrite(db.chats[chatId], id, patch)
  {
    var h := db.chats[chatId];
    var key := Key(chatId, id);
    assert AgreesAt(h, db.rows, chatId, id);
    if key in db.rows {
      KeyOwner(db, chatId, id);
    }
    var m := Written(h, id, patch);
    var row := WrittenRow(RowAt(db.rows, key), chatId, m);
    assert Truthy(row.parent) == if id in h.messages then ParentOf(h.messages[id]) else ParentOf(patch);
    assert UpsertRow(db.rows, chatId, id, m)[key] == row;
  }

  lemma WriteKeepsConsistent(db: Db, chatId: Id, id: Id, patch: Message)
    requires Consistent(db) && patch.parent_id.Absent?
    requires StableWrite(HistoryOf(db, chatId), id, patch)
    ensures Consistent(UpsertMessage(db, chatId, id, patch))
  {
    if chatId in db.chats {
      var db' := UpsertMessage(db, chatId, id, patch);
      WriteKeepsWellKeyed(db, chatId, id, patch);
      WriteKeepsAgreementIff(db, chatId, id, patch);
      forall c | c in db'.chats ensures Agrees(db'.chats[c], db'.rows, c) {
        if c != chatId {
          WriteKeepsOthers(db, chatId, id, patch, c);
        }
      }
    }
  }

  /** Writes that are stable one after another. */
  ghost predicate StableWrites(h: History, ws: seq<Write>)
    decreases |ws|
  {
    ws != [] ==>
      && ws[0].1.parent_id.Absent?
      && StableWrite(h, ws[0].0, ws[0].1)
      && StableWrites(Upsert(h, ws[0].0, ws[0].1), ws[1..])
  }

  lemma {:induction false} ReplayKeepsConsistent(db: Db, chatId: Id, ws: seq<Write>)
    requires Consistent(db) && StableWrites(HistoryOf(db, chatId), ws)
    ensures Consistent(Replay(db, chatId, ws))
    decreases |ws|
  {
    if ws != [] && chatId in db.chats {
      WriteKeepsConsistent(db, chatId, ws[0].0, ws[0].1);
      ReplayKeepsConsistent(UpsertMessage(db, chatId, ws[0].0, ws[0].1), chatId, ws[1..]);
    } else {
      ReplayIsApply(db, chatId, ws);
    }
  }

  /** The user's message of a turn carries no `parent_id` key and, when stored, keeps its parent. */
  ghost predicate StableUser(m: map<Id, Message>, t: Turn)
  {
    Truthy(t.userId).Some? ==>
      && t.user.parent_id.Absent?
      && (t.userId.value in m && t.user.parentId.Present? ==> ParentOf(t.user) == ParentOf(m[t.userId.value]))
  }

  lemma {:induction false} StableConcat(h: History, a: seq<Write>, b: seq<Write>)
    requires StableWrites(h, a) && StableWrites(Apply(h, a), b)
    ensures StableWrites(h, a + b)
    decreases |a|
  {
    if a == [] {
      assert a + b == b;
    } else {
      assert (a + b)[1..] == a[1..] + b;
      StableConcat(Upsert(h, a[0].0, a[0].1), a[1..], b);
    }
  }

  lemma {:induction false} PlaceholdersAreStable(h: History, ids: seq<Id>, parent: Option<Id>)
    requires NoDup(ids) && forall a | a in ids :: a !in h.messages
    ensures StableWrites(h, PlaceholderWrites(ids, parent))
    decreases |ids|
  {
    if ids != [] {
      var ws := PlaceholderWrites(ids, parent);
      assert ids == [ids[0]] + ids[1..] && ids[0] !in ids[1..] && NoDup(ids[1..]);
      assert ws[0] == (ids[0], Placeholder(parent)) && ws[1..] == PlaceholderWrites(ids[1..], parent);
      PlaceholdersAreStable(Upsert(h, ids[0], Placeholder(parent)), ids[1..], parent);
    }
  }

  lemma LinkWritesAreStable(h: History, t: Turn)
    requires StableUser(h.messages, t)
    ensures StableWrites(h, UserWrite(t))
    ensures var h1 := Apply(h, UserWrite(t)); StableWrites(h1, GrandparentWrite(h1, t))
    ensures forall h2 :: StableWrites(h2, FanOutWrite(h2, t))
  {
  }

  /** What is stored before the placeholders are written. */
  lemma LinkedKeys(h: History, t: Turn)
    ensures FanOut(LinkUser(h, t), t).messages.Keys
            == h.messages.Keys + if Truthy(t.userId).Some? then {t.userId.value} else {}
  {
    if Truthy(t.userId).Some? {
      LinkUserShape(h, t);
      FanOutShape(LinkUser(h, t), t);
    }
  }

  lemma TurnIsStable(h: History, t: Turn)
    requires StableUser(h.messages, t) && FreshAssistants(h.messages, t)
    ensures StableWrites(h, FollowUpWrites(h, t))
  {
    var ids := TruthyIds(t.assistants);
    var w1 := UserWrite(t);
    var h1 := Apply(h, w1);
    var w2 := GrandparentWrite(h1, t);
    var h2 := Apply(h1, w2);
    var w3 := FanOutWrite(h2, t);
    LinkWritesAreStable(h, t);
    StableConcat(h, w1, w2);
    ApplyConcat(h, w1, w2);
    StableConcat(h, w1 + w2, w3);
    ApplyConcat(h, w1 + w2, w3);
    LinkedKeys(h, t);
    PlaceholdersAreStable(Apply(h2, w3), ids, t.userId);
    StableConcat(h, w1 + w2 + w3, PlaceholderWrites(ids, t.userId));
  }

  // ---------------------------------------------------------- new chats

  /** Filling in one chat's rows leaves every other chat's alone. */
  lemma BackfillElsewhere(rows: Rows, chatId: Id, messages: map<Id, Message>, c: Id, id: Id)
    requires |c| == |chatId| && c != chatId
    ensures RowOf(Backfill(rows, chatId, messages), c, id) == RowOf(rows, c, id)
  {
    var k := Key(c, id);
    BackfillLookup(rows, chatId, messages, k);
    if k in RoleKeys(chatId, messages) {
      KeyInverse(chatId, messages, k);
      KeysOfEqualLengthChatsDiffer(chatId, StripPrefix(chatId, k), c, id);
    }
  }

  lemma BackfillNew(db: Db, chatId: Id, messages: map<Id, Message>, id: Id)
    requires WellKeyed(db) && chatId !in db.chats && |chatId| == UUID_LENGTH
    ensures RowOf(Backfill(db.rows, chatId, messages), chatId, id)
            == if id in messages && HasRole(messages[id]) then Some(NewRow(chatId, messages[id])) else None
  {
    var k := Key(chatId, id);
    if k in db.rows {
      KeyOwner(db, chatId, id);
    }
    BackfillAt(db.rows, chatId, messages, id);
    BackfillLookup(db.rows, chatId, messages, k);
    StripKey(chatId, id);
  }

  lemma NewChatKeepsWellKeyed(db: Db, chatId: Id, h: History)
    requires WellKeyed(db) && chatId !in db.chats && |chatId| == UUID_LENGTH
    ensures WellKeyed(InsertNewChat(db, chatId, h))
  {
    var rows := Backfill(db.rows, chatId, h.messages);
    forall k | k in rows ensures (rows[k].chatId in db.chats || rows[k].chatId == chatId) && rows[k].chatId + "-" <= k {
      BackfillLookup(db.rows, chatId, h.messages, k);
      if k in RoleKeys(chatId, h.messages) {
        KeyInverse(chatId, h.messages, k);
        if k in db.rows {
          KeyOwner(db, chatId, StripPrefix(chatId, k));
        }
      }
    }
  }

  lemma NewChatKeepsOthers(db: Db, chatId: Id, h: History, c: Id)
    requires Consistent(db) && chatId !in db.chats && |chatId| == UUID_LENGTH && c in db.chats
    ensures Agrees(db.chats[c], InsertNewChat(db, chatId, h).rows, c)
  {
    forall id ensures AgreesAt(db.chats[c], Backfill(db.rows, chatId, h.messages), c, id) {
      assert AgreesAt(db.chats[c], db.rows, c, id);
      BackfillElsewhere(db.rows, chatId, h.messages, c, id);
    }
  }

  lemma NewChatAgreesIff(db: Db, chatId: Id, h: History)
    requires WellKeyed(db) && chatId !in db.chats && |chatId| == UUID_LENGTH
    requires forall id | id in h.messages :: h.messages[id].parent_id.Absent?
    ensures Agrees(h, InsertNewChat(db, chatId, h).rows, chatId)
            <==> forall id | id in h.messages :: HasRole(h.messages[id])
  {
    var rows := Backfill(db.rows, chatId, h.messages);
    forall id ensures AgreesAt(h, rows, chatId, id) <==> (id in h.messages ==> HasRole(h.messages[id])) {
      BackfillNew(db, chatId, h.messages, id);
    }
    if Agrees(h, rows, chatId) {
      forall id | id in h.messages ensures HasRole(h.messages[id]) {
        assert AgreesAt(h, rows, chatId, id);
      }
    }
  }

  lemma NewMessagesRoles(t: Turn)
    requires FreshAssistants(map[], t) && t.user.parent_id.Absent?
    ensures forall id | id in NewMessages(t) :: NewMessages(t)[id].parent_id.Absent?
    ensures (forall id | id in NewMessages(t) :: HasRole(NewMessages(t)[id])) <==> (Truthy(t.userId).Some? ==> HasRole(t.user))
  {
    var m := NewMessages(t);
    if Truthy(t.userId).Some? {
      assert t.userId.value in m && m[t.userId.value] == t.user.(childrenIds := Present(TruthyIds(t.assistants)));
    }
  }

  lemma ConsistentIffNewAgrees(db: Db, chatId: Id, h: History)
    requires Consistent(db) && chatId !in db.chats && |chatId| == UUID_LENGTH
    ensures Consistent(InsertNewChat(db, chatId, h)) <==> Agrees(h, InsertNewChat(db, chatId, h).rows, chatId)
  {
    var db' := InsertNewChat(db, chatId, h);
    NewChatKeepsWellKeyed(db, chatId, h);
    forall c | c in db.chats ensures Agrees(db'.chats[c], db'.rows, c) {
      NewChatKeepsOthers(db, chatId, h, c);
    }
    assert chatId in db'.chats && db'.chats[chatId] == h;
  }

  /** A new chat starts in agreement exactly when its user message has a role. */
  lemma NewChatConsistentIff(db: Db, chatId: Id, t: Turn)
    requires Consistent(db) && chatId !in db.chats && |chatId| == UUID_LENGTH
    requires FreshAssistants(map[], t) && t.user.parent_id.Absent?
    ensures Consistent(InsertNewChat(db, chatId, NewHistory(t))) <==> (Truthy(t.userId).Some? ==> HasRole(t.user))
  {
    NewMessagesRoles(t);
    NewChatAgreesIff(db, chatId, NewHistory(t));
    ConsistentIffNewAgrees(db, chatId, NewHistory(t));
  }

  // ------------------------------------------------ saving the document whole

  /** The same messages with the same parents, none using the key `parent_id`. */
  ghost predicate SameLinks(m: map<Id, Message>, old_: map<Id, Message>)
  {
    && m.Keys == old_.Keys
    && forall id | id in m :: ParentOf(m[id]) == ParentOf(old_[id]) && m[id].parent_id.Absent?
  }

  /** A client's save writes no rows: the chat stays in agreement exactly when no message and no parent changes. */
  lemma SaveKeepsAgreementIff(db: Db, chatId: Id, h: History)
    requires Consistent(db) && chatId in db.chats
    ensures Agrees(h, db.rows, chatId) <==> SameLinks(h.messages, db.chats[chatId].messages)
  {
    var old_ := db.chats[chatId];
    if Agrees(h, db.rows, chatId) {
      forall id
        ensures id in h.messages <==> id in old_.messages
        ensures id in h.messages ==> ParentOf(h.messages[id]) == ParentOf(old_.messages[id]) && h.messages[id].parent_id.Absent?
      {
        assert AgreesAt(old_, db.rows, chatId, id) && AgreesAt(h, db.rows, chatId, id);
      }
    }
    if SameLinks(h.messages, old_.messages) {
      forall id ensures AgreesAt(h, db.rows, chatId, id) {
        assert AgreesAt(old_, db.rows, chatId, id);
        assert id in h.messages <==> id in old_.messages;
      }
    }
  }

  lemma SaveKeepsConsistent(db: Db, chatId: Id, h: History)
    requires Consistent(db) && chatId in db.chats && SameLinks(h.messages, db.chats[chatId].messages)
    ensures Consistent(Db(db.chats[chatId := h], db.rows))
  {
    SaveKeepsAgreementIff(db, chatId, h);
  }

  // ------------------------------------------------------------------ runs

  datatype Op =
    | NewChat(chatId: Id, turn: Turn)
    | FollowUpOp(chatId: Id, turn: Turn)
    | WriteMessage(chatId: Id, id: Id, patch: Message)
    | SaveDocument(chatId: Id, history: History)

  function Step(db: Db, op: Op): Db
  {
    match op
    case NewChat(c, t) => InsertNewChat(db, c, NewHistory(t))
    case FollowUpOp(c, t) => FollowUpTurn(db, c, t)
    case WriteMessage(c, id, patch) => UpsertMessage(db, c, id, patch)
    case SaveDocument(c, h) => if c in db.chats then Db(db.chats[c := h], db.rows) else db
  }

  function Run(db: Db, ops: seq<Op>): Db
    decreases |ops|
  {
    if ops == [] then db else Run(Step(db, ops[0]), ops[1..])
  }

  /** Operations that leave the parent of every stored message alone. */
  ghost predicate KeepsParents(db: Db, op: Op)
  {
    match op
    case NewChat(c, t) =>
      && c !in db.chats && |c| == UUID_LENGTH
      && FreshAssistants(map[], t)
      && t.user.parent_id.Absent? && (Truthy(t.userId).Some? ==> HasRole(t.user))
    case FollowUpOp(c, t) =>
      FreshAssistants(HistoryOf(db, c).messages, t) && StableUser(HistoryOf(db, c).messages, t)
    case WriteMessage(c, id, patch) =>
      patch.parent_id.Absent? && StableWrite(HistoryOf(db, c), id, patch)
    case SaveDocument(c, h) => c in db.chats ==> SameLinks(h.messages, db.chats[c].messages)
  }

  /** Operations that also send no links of their own beyond what a turn may. */
  ghost predicate KeepsLinks(db: Db, op: Op)
  {
    && KeepsParents(db, op)
    && match op
       case NewChat(c, t) => Truthy(t.userId).Some? ==> ParentOf(t.user).None?
       case FollowUpOp(c, t) => Acceptable(HistoryOf(db, c).messages, t)
       case WriteMessage(c, id, patch) => id in HistoryOf(db, c).messages && patch.childrenIds.Absent?
       case SaveDocument(c, h) => c in db.chats ==> Sound(h)
  }

  ghost predicate AllKeepParents(db: Db, ops: seq<Op>)
    decreases |ops|
  {
    ops != [] ==> KeepsParents(db, ops[0]) && AllKeepParents(Step(db, ops[0]), ops[1..])
  }

  ghost predicate AllKeepLinks(db: Db, ops: seq<Op>)
    decreases |ops|
  {
    ops != [] ==> KeepsLinks(db, ops[0]) && AllKeepLinks(Step(db, ops[0]), ops[1..])
  }

  lemma StepKeepsConsistent(db: Db, op: Op)
    requires Consistent(db) && KeepsParents(db, op)
    ensures Consistent(Step(db, op))
  {
    match op
    case NewChat(c, t) => NewChatConsistentIff(db, c, t);
    case FollowUpOp(c, t) =>
      TurnIsStable(HistoryOf(db, c), t);
      ReplayKeepsConsistent(db, c, FollowUpWrites(HistoryOf(db, c), t));
    case WriteMessage(c, id, patch) => WriteKeepsConsistent(db, c, id, patch);
    case SaveDocument(c, h) =>
      if c in db.chats {
        SaveKeepsConsistent(db, c, h);
      }
  }

  /** Over every run that never changes a stored parent, blobs and rows stay in agreement. */
  lemma {:induction false} RunsKeepStoresInAgreement(db: Db, ops: seq<Op>)
    requires Consistent(db) && AllKeepParents(db, ops)
    ensures Consistent(Run(db, ops))
    decreases |ops|
  {
    if ops != [] {
      StepKeepsConsistent(db, ops[0]);
      RunsKeepStoresInAgreement(Step(db, ops[0]), ops[1..]);
    }
  }

  ghost predicate AllSound(db: Db)
  {
    forall c | c in db.chats :: Sound(db.chats[c])
  }

  lemma PatchKeepsSound(h: History, id: Id, patch: Message)
    requires Sound(h) && id in h.messages && patch.childrenIds.Absent? && StableWrite(h, id, patch)
    ensures Sound(Upsert(h, id, patch))
  {
    var f := Upsert(h, id, patch).messages;
    forall x | x in f ensures ParentOf(f[x]) == ParentOf(h.messages[x]) && ChildrenOf(f[x]) == ChildrenOf(h.messages[x]) {
    }
    assert ParentsOf(f) == ParentsOf(h.messages);
    forall x | x in f ensures ChildSet(f, x) == ChildSet(h.messages, x) {
    }
  }

  lemma StepKeepsSound(db: Db, op: Op)
    requires AllSound(db) && KeepsLinks(db, op)
    ensures AllSound(Step(db, op))
  {
    match op
    case NewChat(c, t) => NewChatIsSoundIff(t);
    case FollowUpOp(c, t) =>
      ReplayIsApply(db, c, FollowUpWrites(HistoryOf(db, c), t));
      if c in db.chats {
        FollowUpKeepsSoundIff(db.chats[c], t);
      }
    case WriteMessage(c, id, patch) =>
      if c in db.chats {
        PatchKeepsSound(db.chats[c], id, patch);
      }
    case SaveDocument(_, _) =>
  }

  /** Over every run of turns and content writes, every history is a sound tree. */
  lemma {:induction false} RunsKeepHistoriesSound(db: Db, ops: seq<Op>)
    requires AllSound(db) && AllKeepLinks(db, ops)
    ensures AllSound(Run(db, ops))
    decreases |ops|
  {
    if ops != [] {
      StepKeepsSound(db, ops[0]);
      RunsKeepHistoriesSound(Step(db, ops[0]), ops[1..]);
    }
  }

  lemma {:induction false} LinksKeptImpliesParentsKept(db: Db, ops: seq<Op>)
    requires AllKeepLinks(db, ops)
    ensures AllKeepParents(db, ops)
    decreases |ops|
  {
    if ops != [] {
      LinksKeptImpliesParentsKept(Step(db, ops[0]), ops[1..]);
    }
  }

  lemma ViewAgreesAt(db: Db, c: Id, view: map<Id, Row>, id: Id)
    requires Consistent(db) && c in db.chats && KeyedBy(db.rows, c) && view == ViewOf(db.rows, c)
    ensures id in view <==> id in db.chats[c].messages
    ensures id in view ==> Truthy(view[id].parent) == ParentOf(db.chats[c].messages[id])
  {
    assert AgreesAt(db.chats[c], db.rows, c, id);
  }

  lemma SameParents(view: map<Id, Row>, m: map<Id, Message>)
    requires forall id :: id in view <==> id in m
    requires forall id | id in view :: Truthy(view[id].parent) == ParentOf(m[id])
    ensures view.Keys == m.Keys && RowParentsOf(view) == ParentsOf(m)
  {
  }

  lemma ViewAgrees(db: Db, c: Id)
    requires Consistent(db) && c in db.chats
    ensures KeyedBy(db.rows, c)
    ensures var view := ViewOf(db.rows, c);
            && view.Keys == db.chats[c].messages.Keys
            && RowParentsOf(view) == ParentsOf(db.chats[c].messages)
  {
    var view := ViewOf(db.rows, c);
    forall id
      ensures id in view <==> id in db.chats[c].messages
      ensures id in view ==> Truthy(view[id].parent) == ParentOf(db.chats[c].messages[id])
    {
      ViewAgreesAt(db, c, view, id);
    }
    SameParents(view, db.chats[c].messages);
  }

  /** m and blob hold the same messages, each with the same parent and, in some order, the same children. */
  ghost predicate SameTree(m: map<Id, Message>, blob: map<Id, Message>)
  {
    && m.Keys == blob.Keys
    && forall id | id in m :: && ParentOf(m[id]) == ParentOf(blob[id])
                              && NoDup(ChildrenOf(m[id])) && NoDup(ChildrenOf(blob[id]))
                              && Elems(ChildrenOf(m[id])) == Elems(ChildrenOf(blob[id]))
  }

  lemma SameParentsSameTree(m: map<Id, Message>, blob: map<Id, Message>)
    requires ParentsOf(m) == ParentsOf(blob) && ChildrenExact(m) && ChildrenExact(blob)
    ensures SameTree(m, blob)
  {
    forall id | id in m ensures ParentOf(m[id]) == ParentOf(blob[id]) {
      assert ParentsOf(m)[id] == ParentsOf(blob)[id];
    }
    assert m.Keys == ParentsOf(m).Keys && blob.Keys == ParentsOf(blob).Keys;
    forall id | id in m ensures ChildSet(m, id) == ChildSet(blob, id) {
    }
  }

  lemma RowsRebuildOneChat(db: Db, c: Id, m: map<Id, Message>)
    requires Consistent(db) && c in db.chats && IsTree(db.chats[c].messages)
    requires KeyedBy(db.rows, c) && IsMessageMap(ViewOf(db.rows, c), m)
    ensures SameTree(m, db.chats[c].messages)
  {
    ViewAgrees(db, c);
    GapsOfMap(ViewOf(db.rows, c), m);
    SameParentsSameTree(m, db.chats[c].messages);
  }

  /**
   After any such run from an empty store, the map rebuilt from the rows is the
   tree of the blob.
   */
  lemma RowsRebuildTheBlob(ops: seq<Op>, c: Id, m: map<Id, Message>)
    requires AllKeepLinks(Db(map[], map[]), ops)
    requires var db := Run(Db(map[], map[]), ops);
             c in db.chats && KeyedBy(db.rows, c) && IsMessageMap(ViewOf(db.rows, c), m)
    ensures SameTree(m, Run(Db(map[], map[]), ops).chats[c].messages)
  {
    var empty := Db(map[], map[]);
    LinksKeptImpliesParentsKept(empty, ops);
    RunsKeepStoresInAgreement(empty, ops);
    RunsKeepHistoriesSound(empty, ops);
    RowsRebuildOneChat(Run(empty, ops), c, m);
  }
}
