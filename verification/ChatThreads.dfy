/**
 Threads: the messages from the root of a chat down to one message, in order, which
 is what a model is given.  A turn extends the thread it answers, and no other.
 */
module ChatThreads {
  import opened Prelude
  import opened Forest
  import opened ChatMessages
  import opened Chats
  import opened ChatTurns
  import opened ChatRuns
  import opened SelfHealing

  /** A climb does not notice new nodes, nor a change at a node it does not meet. */
  lemma {:induction false} ClimbElsewhere(p: Parents, q: Parents, at: Id, x: Id, visited: set<Id>)
    requires p.Keys <= q.Keys && forall y | y in p && y != at :: q[y] == p[y]
    requires forall y | y in p && p[y].Some? :: p[y].value in p
    requires x in p && at !in Walk(p, x, visited)
    ensures Walk(q, x, visited) == Walk(p, x, visited)
    decreases p.Keys - visited
  {
    if x !in visited && p[x].Some? {
      ClimbElsewhere(p, q, at, p[x].value, visited + {x});
    }
  }

  /** The thread of every message that is not at or below the user's message stays as it was. */
  lemma TurnKeepsOtherThreads(h: History, t: Turn, x: Id)
    requires Sound(h) && FreshAssistants(h.messages, t) && Truthy(t.userId).Some?
    requires x in h.messages && t.userId.value !in Thread(h.messages, x)
    ensures Thread(FollowUp(h, t).messages, x) == Thread(h.messages, x)
  {
    FollowUpShape(h, t);
    ReversedMembers(Walk(ParentsOf(h.messages), x));
    ClimbElsewhere(ParentsOf(h.messages), ParentsOf(FollowUp(h, t).messages), t.userId.value, x, {});
  }

  lemma AnswerClimb(m: map<Id, Message>, t: Turn, f: map<Id, Message>, answer: Id)
    requires IsTree(m) && t.userId.Some? && TurnShape(m, t, TruthyIds(t.assistants), f) && Acyclic(ParentsOf(f))
    requires answer in TruthyIds(t.assistants)
    requires var p := UserParent(m, t); p.Some? ==> p.value in m && t.userId.value !in Walk(ParentsOf(m), p.value)
    ensures var p := UserParent(m, t);
            Walk(ParentsOf(f), answer)
            == [answer] + ([t.userId.value] + if p.Some? then Walk(ParentsOf(m), p.value) else [])
  {
    var u := t.userId.value;
    assert ParentsOf(f)[answer] == Some(u) && ParentsOf(f)[u] == UserParent(m, t);
    WalkUnfold(ParentsOf(f), answer);
    WalkUnfold(ParentsOf(f), u);
    if UserParent(m, t).Some? {
      ClimbElsewhere(ParentsOf(m), ParentsOf(f), u, UserParent(m, t).value, {});
    }
  }

  function ThreadOf(m: map<Id, Message>, id: Option<Id>): seq<Id>
  {
    if id.Some? then Thread(m, id.value) else []
  }

  /** Each answer's thread is that of the message the user replied to, then the user's message, then the answer. */
  lemma TurnExtendsThread(h: History, t: Turn, answer: Id)
    requires Sound(h) && FreshAssistants(h.messages, t) && Acceptable(h.messages, t)
    requires Truthy(t.userId).Some? && answer in TruthyIds(t.assistants)
    ensures Thread(FollowUp(h, t).messages, answer)
            == ThreadOf(h.messages, UserParent(h.messages, t)) + [t.userId.value, answer]
  {
    var m, p := h.messages, UserParent(h.messages, t);
    FollowUpShape(h, t);
    FollowUpKeepsSoundIff(h, t);
    UserParentStored(m, t);
    if p.Some? {
      ParentClimbAvoids(m, t, p.value);
    }
    AnswerClimb(m, t, FollowUp(h, t).messages, answer);
    ReversedAppend(if p.Some? then Walk(ParentsOf(m), p.value) else [], t.userId.value, answer);
  }

  /** The user's message is not on the climb from its parent. */
  lemma ParentClimbAvoids(m: map<Id, Message>, t: Turn, p: Id)
    requires IsTree(m) && Truthy(t.userId).Some? && Acceptable(m, t) && UserParent(m, t) == Some(p)
    ensures t.userId.value !in Walk(ParentsOf(m), p)
  {
    var u, q := t.userId.value, ParentsOf(m);
    UserParentStored(m, t);
    if u in m {
      UserParentKeepsAcyclic(m, t);
      MoveKeepsAcyclicIff(q, u, p);
    } else {
      var rank :| Ranks(q, rank);
      WalkRanks(q, rank, p, {});
    }
  }

  lemma ReversedMembers<T>(s: seq<T>)
    ensures forall x :: x in Reversed(s) <==> x in s
  {
    forall x | x in s ensures x in Reversed(s) {
      var i :| 0 <= i < |s| && s[i] == x;
      assert Reversed(s)[|s| - 1 - i] == x;
    }
  }

  lemma ReversedAppend<T>(s: seq<T>, u: T, a: T)
    ensures Reversed([a] + ([u] + s)) == Reversed(s) + [u, a]
  {
  }

  /** A follow-up ends on its last answer, a new chat begins on its first. */
  lemma CurrentAnswer(h: History, t: Turn)
    requires FreshAssistants(h.messages, t) && TruthyIds(t.assistants) != []
    ensures FollowUp(h, t).currentId == Some(TruthyIds(t.assistants)[|TruthyIds(t.assistants)| - 1])
    ensures NewHistory(t).currentId == Some(TruthyIds(t.assistants)[0])
  {
    FollowUpInSteps(h, t);
    LinkedKeys(h, t);
    PlaceholdersShape(FanOut(LinkUser(h, t), t), TruthyIds(t.assistants), t.userId);
  }

  lemma SameTreeSameThread(m: map<Id, Message>, blob: map<Id, Message>, id: Id)
    requires SameTree(m, blob)
    ensures Thread(m, id) == Thread(blob, id)
  {
    assert ParentsOf(m) == ParentsOf(blob);
  }

  lemma StoredThread(db: Db, c: Id, t: Turn, before: map<Id, Message>)
    requires Consistent(db) && AllSound(db) && c in db.chats && t.userId.Some?
    requires KeyedBy(db.rows, c) && IsMessageMap(ViewOf(db.rows, c), before)
    ensures ThreadOf(before, UserParent(before, t)) == ThreadOf(db.chats[c].messages, UserParent(db.chats[c].messages, t))
  {
    RowsRebuildOneChat(db, c, before);
    var p := UserParent(before, t);
    assert UserParent(db.chats[c].messages, t) == p;
    if p.Some? {
      SameTreeSameThread(before, db.chats[c].messages, p.value);
    }
  }

  lemma StoredTurn(db: Db, c: Id, t: Turn)
    requires c in db.chats
    ensures c in FollowUpTurn(db, c, t).chats && FollowUpTurn(db, c, t).chats[c] == FollowUp(db.chats[c], t)
  {
    ReplayIsApply(db, c, FollowUpWrites(db.chats[c], t));
  }

  /**
   Read from the rows after a turn at the end of any run, the thread of an answer is
   the thread that was read from the rows before it, then the user's message and the answer.
   */
  lemma RowsServeExtendedThread(ops: seq<Op>, c: Id, t: Turn, answer: Id, before: map<Id, Message>, after: map<Id, Message>)
    requires AllKeepLinks(Db(map[], map[]), ops) && Truthy(t.userId).Some? && answer in TruthyIds(t.assistants)
    requires var db := Run(Db(map[], map[]), ops);
             c in db.chats && KeepsLinks(db, FollowUpOp(c, t)) && KeyedBy(db.rows, c) && IsMessageMap(ViewOf(db.rows, c), before)
    requires var rows := FollowUpTurn(Run(Db(map[], map[]), ops), c, t).rows;
             KeyedBy(rows, c) && IsMessageMap(ViewOf(rows, c), after)
    ensures Thread(after, answer) == ThreadOf(before, UserParent(before, t)) + [t.userId.value, answer]
  {
    var empty := Db(map[], map[]);
    var db := Run(empty, ops);
    LinksKeptImpliesParentsKept(empty, ops);
    RunsKeepStoresInAgreement(empty, ops);
    RunsKeepHistoriesSound(empty, ops);
    StepKeepsConsistent(db, FollowUpOp(c, t));
    StepKeepsSound(db, FollowUpOp(c, t));
    StoredThread(db, c, t, before);
    StoredTurn(db, c, t);
    TurnExtendsThread(db.chats[c], t, answer);
    RowsRebuildOneChat(FollowUpTurn(db, c, t), c, after);
    SameTreeSameThread(after, FollowUp(db.chats[c], t).messages, answer);
  }
}
