/**
 One chat turn: the user's message is linked under its parent, then a placeholder
 for each model's answer is linked under the user's message.  A turn is a series
 of message upserts; between them the history is not a consistent tree.
 */
module ChatTurns {
  import opened Prelude
  import opened Forest
  import opened ChatMessages
  import opened Chats

  /** A request: the user's message with its id, and one assistant id for each model. */
  datatype Turn = Turn(userId: Option<Id>, user: Message, assistants: seq<Option<Id>>)

  /** A patch for one message. */
  type Write = (Id, Message)

  function TruthyIds(ids: seq<Option<Id>>): (r: seq<Id>)
    ensures forall a | a in r :: a != "" && Some(a) in ids
  {
    if ids == [] then []
    else (if Truthy(ids[0]).Some? then [ids[0].value] else []) + TruthyIds(ids[1..])
  }

  function Placeholder(parent: Option<Id>): Message
  {
    BLANK.(parentId := Present(parent), childrenIds := Present([]), role := Present("assistant"), done := Present(false))
  }

  function ChildrenPatch(ids: seq<Id>): Message
  {
    BLANK.(childrenIds := Present(ids))
  }

  /** children, then each id not there yet. */
  function AppendMissing(children: seq<Id>, ids: seq<Id>): seq<Id>
    decreases |ids|
  {
    if ids == [] then children
    else AppendMissing(if ids[0] in children then children else children + [ids[0]], ids[1..])
  }

  function Apply(h: History, ws: seq<Write>): History
    decreases |ws|
  {
    if ws == [] then h else Apply(Upsert(h, ws[0].0, ws[0].1), ws[1..])
  }

  // ------------------------------------------------------------- follow-up

  function UserWrite(t: Turn): seq<Write>
  {
    if Truthy(t.userId).Some? then [(t.userId.value, t.user)] else []
  }

  function GrandparentWrite(h: History, t: Turn): seq<Write>
  {
    var p := ParentOf(t.user);
    if Truthy(t.userId).Some? && p.Some? && p.value in h.messages
       && t.userId.value !in ChildrenOf(h.messages[p.value])
    then [(p.value, ChildrenPatch(ChildrenOf(h.messages[p.value]) + [t.userId.value]))]
    else []
  }

  function FanOutWrite(h: History, t: Turn): seq<Write>
  {
    var ids := TruthyIds(t.assistants);
    if Truthy(t.userId).Some? && ids != [] && t.userId.value in h.messages
    then [(t.userId.value, ChildrenPatch(AppendMissing(ChildrenOf(h.messages[t.userId.value]), ids)))]
    else []
  }

  function PlaceholderWrites(ids: seq<Id>, parent: Option<Id>): seq<Write>
  {
    if ids == [] then [] else [(ids[0], Placeholder(parent))] + PlaceholderWrites(ids[1..], parent)
  }

  /** The upserts of a follow-up turn, each computed from the history it finds. */
  function FollowUpWrites(h: History, t: Turn): seq<Write>
  {
    var w1 := UserWrite(t);
    var h1 := Apply(h, w1);
    var w2 := GrandparentWrite(h1, t);
    var h2 := Apply(h1, w2);
    var w3 := FanOutWrite(h2, t);
    w1 + w2 + w3 + PlaceholderWrites(TruthyIds(t.assistants), t.userId)
  }

  function FollowUp(h: History, t: Turn): History
  {
    Apply(h, FollowUpWrites(h, t))
  }

  // -------------------------------------------------------------- new chat

  function NewMessages(t: Turn): map<Id, Message>
  {
    var ids := TruthyIds(t.assistants);
    var first: map<Id, Message> :=
      if Truthy(t.userId).Some? then map[t.userId.value := t.user.(childrenIds := Present(ids))] else map[];
    first + map a | a in ids :: Placeholder(t.userId)
  }

  function NewHistory(t: Turn): History
  {
    var ids := TruthyIds(t.assistants);
    History(if ids != [] then Some(ids[0]) else t.userId, NewMessages(t))
  }

  // ---------------------------------------------------------- the invariant

  /** Children lists are the exact duplicate-free inverse of the parent links. */
  ghost predicate ChildrenExact(m: map<Id, Message>)
  {
    forall id | id in m :: NoDup(ChildrenOf(m[id])) && Elems(ChildrenOf(m[id])) == ChildSet(m, id)
  }

  ghost predicate ParentsStored(m: map<Id, Message>)
  {
    forall id | id in m && ParentOf(m[id]).Some? :: ParentOf(m[id]).value in m
  }

  ghost predicate IsTree(m: map<Id, Message>)
  {
    ParentsStored(m) && Acyclic(ParentsOf(m)) && ChildrenExact(m)
  }

  /** The current message is a stored one; an empty history names none. */
  ghost predicate CurrentStored(h: History)
  {
    if h.messages == map[] then Truthy(h.currentId).None?
    else h.currentId.Some? && h.currentId.value in h.messages
  }

  ghost predicate Sound(h: History)
  {
    IsTree(h.messages) && CurrentStored(h)
  }

  /** The assistant ids of the turn are new to the history and differ from one another and from the user's. */
  ghost predicate FreshAssistants(m: map<Id, Message>, t: Turn)
  {
    var ids := TruthyIds(t.assistants);
    && NoDup(ids)
    && (forall a | a in ids :: a !in m && Some(a) != t.userId)
  }

  /**
   What the turn may send as the user's message.  A new message has no parent or
   a stored one, and lists no children but the turn's assistants, none of them
   twice.  A stored message keeps its parent, or, being a root, moves under one
   that is not in its own subtree; a children list, when sent, keeps those it has.
   */
  ghost predicate Acceptable(m: map<Id, Message>, t: Turn)
  {
    Truthy(t.userId).Some? ==>
      var u := t.userId.value;
      var ids := TruthyIds(t.assistants);
      var p := ParentOf(t.user);
      if u !in m then
        && (p.Some? ==> p.value in m)
        && NoDup(ChildrenOf(t.user))
        && Elems(ChildrenOf(t.user)) <= Elems(ids)
      else
        && (|| t.user.parentId.Absent?
            || p == ParentOf(m[u])
            || (ParentOf(m[u]).None? && p.value in m && u !in Walk(ParentsOf(m), p.value)))
        && (t.user.childrenIds.Present? ==>
              && NoDup(ChildrenOf(t.user))
              && ChildSet(m, u) <= Elems(ChildrenOf(t.user)) <= ChildSet(m, u) + Elems(ids))
  }

  // ---------------------------------------------------------------- shapes

  lemma {:induction false} ApplyConcat(h: History, a: seq<Write>, b: seq<Write>)
    ensures Apply(h, a + b) == Apply(Apply(h, a), b)
    decreases |a|
  {
    if a == [] {
      assert a + b == b;
    } else {
      assert (a + b)[1..] == a[1..] + b;
      ApplyConcat(Upsert(h, a[0].0, a[0].1), a[1..], b);
    }
  }

  lemma {:induction false} AppendMissingSpec(children: seq<Id>, ids: seq<Id>)
    ensures children <= AppendMissing(children, ids)
    ensures Elems(AppendMissing(children, ids)) == Elems(children) + Elems(ids)
    ensures NoDup(children) ==> NoDup(AppendMissing(children, ids))
    decreases |ids|
  {
    if ids != [] {
      var next := if ids[0] in children then children else children + [ids[0]];
      if NoDup(children) && ids[0] !in children {
        NoDupAppend(children, ids[0]);
      }
      AppendMissingSpec(next, ids[1..]);
      assert ids == [ids[0]] + ids[1..];
      assert Elems(next) == Elems(children) + {ids[0]};
      assert Elems(ids) == {ids[0]} + Elems(ids[1..]);
    }
  }

  ghost predicate PlaceholdersAdded(m: map<Id, Message>, ids: seq<Id>, parent: Option<Id>, f: map<Id, Message>)
  {
    && f.Keys == m.Keys + Elems(ids)
    && (forall id | id in m :: f[id] == m[id])
    && (forall a | a in ids :: f[a] == Placeholder(parent))
  }

  /** Placeholders with new, distinct ids are simply added. */
  lemma {:induction false} PlaceholdersShape(h: History, ids: seq<Id>, parent: Option<Id>)
    requires NoDup(ids) && forall a | a in ids :: a !in h.messages
    ensures var h' := Apply(h, PlaceholderWrites(ids, parent));
            && PlaceholdersAdded(h.messages, ids, parent, h'.messages)
            && h'.currentId == if ids == [] then h.currentId else Some(ids[|ids| - 1])
    decreases |ids|
  {
    if ids != [] {
      var next := Upsert(h, ids[0], Placeholder(parent));
      assert ids == [ids[0]] + ids[1..];
      assert NoDup(ids[1..]) && ids[0] !in ids[1..];
      PlaceholdersShape(next, ids[1..], parent);
      var ws := PlaceholderWrites(ids, parent);
      assert ws[0] == (ids[0], Placeholder(parent)) && ws[1..] == PlaceholderWrites(ids[1..], parent);
      assert Elems(ids) == {ids[0]} + Elems(ids[1..]);
    }
  }

  function SentChildren(m: map<Id, Message>, t: Turn): seq<Id>
    requires t.userId.Some?
  {
    if t.user.childrenIds.Present? then t.user.childrenIds.value
    else if t.userId.value in m then ChildrenOf(m[t.userId.value])
    else []
  }

  function UserParent(m: map<Id, Message>, t: Turn): Option<Id>
    requires t.userId.Some?
  {
    if t.user.parentId.Absent? && t.userId.value in m then ParentOf(m[t.userId.value]) else ParentOf(t.user)
  }

  /** How a turn with a user message changes the links of m; f is the result. */
  ghost predicate TurnShape(m: map<Id, Message>, t: Turn, ids: seq<Id>, f: map<Id, Message>)
    requires t.userId.Some?
  {
    var u := t.userId.value;
    var p := ParentOf(t.user);
    && f.Keys == m.Keys + {u} + Elems(ids)
    && (forall id | id in m && id != u :: ParentOf(f[id]) == ParentOf(m[id]))
    && ParentOf(f[u]) == UserParent(m, t)
    && (forall id | id in m && id != u ::
          ChildrenOf(f[id]) == ChildrenOf(m[id]) + if p == Some(id) && u !in ChildrenOf(m[id]) then [u] else [])
    && SentChildren(m, t) <= ChildrenOf(f[u])
    && (p != Some(u) ==> ChildrenOf(f[u]) == AppendMissing(SentChildren(m, t), ids))
    && (forall a | a in ids :: ParentOf(f[a]) == Some(u) && ChildrenOf(f[a]) == [])
  }

  /** The history once the user's message is stored and linked under its parent. */
  function LinkUser(h: History, t: Turn): History
  {
    var h1 := Apply(h, UserWrite(t));
    Apply(h1, GrandparentWrite(h1, t))
  }

  function FanOut(h: History, t: Turn): History
  {
    Apply(h, FanOutWrite(h, t))
  }

  lemma FollowUpInSteps(h: History, t: Turn)
    ensures FollowUp(h, t)
            == Apply(FanOut(LinkUser(h, t), t), PlaceholderWrites(TruthyIds(t.assistants), t.userId))
  {
    var w1 := UserWrite(t);
    var h1 := Apply(h, w1);
    var w2 := GrandparentWrite(h1, t);
    var h2 := Apply(h1, w2);
    var w3 := FanOutWrite(h2, t);
    ApplyConcat(h, w1, w2);
    ApplyConcat(h, w1 + w2, w3);
    ApplyConcat(h, w1 + w2 + w3, PlaceholderWrites(TruthyIds(t.assistants), t.userId));
  }

  lemma LinkUserShape(h: History, t: Turn)
    requires Truthy(t.userId).Some?
    ensures TurnShape(h.messages, t, [], LinkUser(h, t).messages)
    ensures CurrentStored(LinkUser(h, t))
  {
    var h1 := Upsert(h, t.userId.value, t.user);
    assert UserWrite(t)[1..] == [];
    assert Apply(h, UserWrite(t)) == h1;
    var w2 := GrandparentWrite(h1, t);
    if w2 != [] {
      assert w2[1..] == [];
      assert Apply(h1, w2) == Upsert(h1, w2[0].0, w2[0].1);
    }
  }

  ghost predicate FannedOut(m: map<Id, Message>, u: Id, ids: seq<Id>, f: map<Id, Message>)
  {
    && u in m
    && f.Keys == m.Keys
    && (forall id | id in m && id != u :: f[id] == m[id])
    && ParentOf(f[u]) == ParentOf(m[u])
    && ChildrenOf(f[u]) == AppendMissing(ChildrenOf(m[u]), ids)
  }

  lemma FanOutShape(h: History, t: Turn)
    requires Truthy(t.userId).Some? && t.userId.value in h.messages
    ensures FannedOut(h.messages, t.userId.value, TruthyIds(t.assistants), FanOut(h, t).messages)
    ensures CurrentStored(h) ==> CurrentStored(FanOut(h, t))
  {
    var w := FanOutWrite(h, t);
    if w != [] {
      assert w[1..] == [];
      assert Apply(h, w) == Upsert(h, w[0].0, w[0].1);
    }
  }

  lemma ComposeShapes(m: map<Id, Message>, t: Turn, ids: seq<Id>,
                      linked: map<Id, Message>, fanned: map<Id, Message>, f: map<Id, Message>)
    requires t.userId.Some? && Truthy(t.userId).Some?
    requires TurnShape(m, t, [], linked)
    requires FannedOut(linked, t.userId.value, ids, fanned)
    requires PlaceholdersAdded(fanned, ids, t.userId, f)
    requires forall a | a in ids :: a !in m && a != t.userId.value
    ensures TurnShape(m, t, ids, f)
  {
    var u := t.userId.value;
    AppendMissingSpec(ChildrenOf(linked[u]), ids);
    assert f[u] == fanned[u];
    forall id | id in m && id != u ensures f[id] == linked[id] {
    }
  }

  lemma FollowUpShape(h: History, t: Turn)
    requires Truthy(t.userId).Some? && FreshAssistants(h.messages, t)
    ensures TurnShape(h.messages, t, TruthyIds(t.assistants), FollowUp(h, t).messages)
    ensures CurrentStored(FollowUp(h, t))
  {
    var ids := TruthyIds(t.assistants);
    var linked := LinkUser(h, t);
    LinkUserShape(h, t);
    var fanned := FanOut(linked, t);
    FanOutShape(linked, t);
    FollowUpInSteps(h, t);
    PlaceholdersShape(fanned, ids, t.userId);
    ComposeShapes(h.messages, t, ids, linked.messages, fanned.messages, FollowUp(h, t).messages);
  }

  /** Without a user message the placeholders become roots. */
  lemma RootsShape(h: History, t: Turn)
    requires Truthy(t.userId).None? && FreshAssistants(h.messages, t)
    ensures var ids := TruthyIds(t.assistants);
            var f := FollowUp(h, t);
            && f.messages.Keys == h.messages.Keys + Elems(ids)
            && (forall id | id in h.messages :: f.messages[id] == h.messages[id])
            && (forall a | a in ids :: ParentOf(f.messages[a]).None? && ChildrenOf(f.messages[a]) == [])
            && f.currentId == if ids == [] then h.currentId else Some(ids[|ids| - 1])
  {
    var ids := TruthyIds(t.assistants);
    assert LinkUser(h, t) == h;
    assert FanOut(h, t) == h;
    FollowUpInSteps(h, t);
    PlaceholdersShape(h, ids, t.userId);
  }

  // ---------------------------------------------------- whole-turn theorems

  lemma UserParentKeepsAcyclic(m: map<Id, Message>, t: Turn)
    requires IsTree(m) && Truthy(t.userId).Some? && Acceptable(m, t)
    ensures Acyclic(ParentsOf(m)[t.userId.value := UserParent(m, t)])
  {
    var u := t.userId.value;
    var p := ParentsOf(m);
    var q := p[u := UserParent(m, t)];
    if u !in m {
      AttachKeepsAcyclic(p, q);
    } else if UserParent(m, t) == ParentOf(m[u]) {
      assert q == p;
    } else {
      MoveKeepsAcyclicIff(p, u, ParentOf(t.user).value);
    }
  }

  lemma UserParentStored(m: map<Id, Message>, t: Turn)
    requires IsTree(m) && Truthy(t.userId).Some? && Acceptable(m, t)
    ensures UserParent(m, t).Some? ==> UserParent(m, t).value in m
  {
  }

  lemma TurnKeepsAcyclic(m: map<Id, Message>, t: Turn, ids: seq<Id>, f: map<Id, Message>)
    requires t.userId.Some?
    requires ParentsStored(m) && TurnShape(m, t, ids, f)
    requires forall a | a in ids :: a !in m && a != t.userId.value
    requires UserParent(m, t).Some? ==> UserParent(m, t).value in m
    requires Acyclic(ParentsOf(m)[t.userId.value := UserParent(m, t)])
    ensures Acyclic(ParentsOf(f)) && ParentsStored(f)
  {
    var u := t.userId.value;
    var p := ParentsOf(m)[u := UserParent(m, t)];
    var q := ParentsOf(f);
    forall x | x in p ensures x in q && q[x] == p[x] && (p[x].Some? ==> p[x].value in p) {
    }
    forall x | x in q && x !in p ensures q[x] == Some(u) {
      assert x in ids;
    }
    AttachKeepsAcyclic(p, q);
  }

  /** The children of a node after the turn, read off the parent links. */
  lemma ChildSetAfter(m: map<Id, Message>, t: Turn, ids: seq<Id>, f: map<Id, Message>, id: Id)
    requires t.userId.Some?
    requires ParentsStored(m) && TurnShape(m, t, ids, f) && id in f
    requires forall a | a in ids :: a !in m && a != t.userId.value
    ensures var u := t.userId.value;
            ChildSet(f, id) == (if id in m then ChildSet(m, id) - {u} else {})
                               + (if UserParent(m, t) == Some(id) then {u} else {})
                               + (if id == u then Elems(ids) else {})
  {
    var u := t.userId.value;
    forall c | c in f
      ensures c in ChildSet(f, id) <==>
              if c == u then UserParent(m, t) == Some(id)
              else if c in m then c in ChildSet(m, id)
              else id == u
    {
      assert c == u || c in m || c in ids;
    }
    forall c | c in ids ensures c in f {
      assert c in Elems(ids);
    }
    if id !in m {
      assert ChildSet(m, id) == {};
    }
  }

  lemma AcceptableListsStayExact(m: map<Id, Message>, t: Turn, ids: seq<Id>, f: map<Id, Message>, id: Id)
    requires IsTree(m) && Truthy(t.userId).Some? && Acceptable(m, t) && FreshAssistants(m, t)
    requires ids == TruthyIds(t.assistants) && TurnShape(m, t, ids, f) && id in f
    ensures NoDup(ChildrenOf(f[id])) && Elems(ChildrenOf(f[id])) == ChildSet(f, id)
  {
    var u := t.userId.value;
    ChildSetAfter(m, t, ids, f, id);
    if id == u {
      AcceptableUserList(m, t, ids, f);
    } else if id in m {
      AcceptableOldList(m, t, ids, f, id);
    } else {
      assert id in ids;
    }
  }

  /** The user's message is no parent of its own, and its stored children are sent along. */
  lemma AcceptableUser(m: map<Id, Message>, t: Turn, ids: seq<Id>)
    requires IsTree(m) && Truthy(t.userId).Some? && Acceptable(m, t) && ids == TruthyIds(t.assistants)
    ensures var u := t.userId.value;
            && ParentOf(t.user) != Some(u) && UserParent(m, t) != Some(u)
            && NoDup(SentChildren(m, t))
            && (u !in m ==> Elems(SentChildren(m, t)) <= Elems(ids))
            && (u in m ==> u !in ChildSet(m, u) && ChildSet(m, u) <= Elems(SentChildren(m, t)) <= ChildSet(m, u) + Elems(ids))
  {
    var u := t.userId.value;
    if u in m {
      if ParentOf(m[u]) == Some(u) {
        NoShortCycle(ParentsOf(m), u, u);
      }
      if ParentOf(t.user) == Some(u) {
        WalkUnfold(ParentsOf(m), u);
      }
    }
  }

  lemma AcceptableUserList(m: map<Id, Message>, t: Turn, ids: seq<Id>, f: map<Id, Message>)
    requires IsTree(m) && Truthy(t.userId).Some? && Acceptable(m, t) && FreshAssistants(m, t)
    requires ids == TruthyIds(t.assistants) && TurnShape(m, t, ids, f)
    ensures var u := t.userId.value; NoDup(ChildrenOf(f[u])) && Elems(ChildrenOf(f[u])) == ChildSet(f, u)
  {
    var u := t.userId.value;
    ChildSetAfter(m, t, ids, f, u);
    AcceptableUser(m, t, ids);
    AppendMissingSpec(SentChildren(m, t), ids);
  }

  lemma GrownList(children: seq<Id>, grows: bool, u: Id, cs: set<Id>)
    requires NoDup(children) && Elems(children) == cs && (grows ==> u !in children)
    ensures var grown := children + if grows then [u] else [];
            NoDup(grown) && Elems(grown) == cs + if grows then {u} else {}
  {
    if grows {
      NoDupAppend(children, u);
    }
  }

  lemma AcceptableOldList(m: map<Id, Message>, t: Turn, ids: seq<Id>, f: map<Id, Message>, id: Id)
    requires IsTree(m) && Truthy(t.userId).Some? && Acceptable(m, t) && FreshAssistants(m, t)
    requires ids == TruthyIds(t.assistants) && TurnShape(m, t, ids, f) && id in m && id != t.userId.value
    ensures NoDup(ChildrenOf(f[id])) && Elems(ChildrenOf(f[id])) == ChildSet(f, id)
  {
    var u := t.userId.value;
    var children := ChildrenOf(m[id]);
    var grows := ParentOf(t.user) == Some(id) && u !in children;
    assert u in children <==> u in ChildSet(m, id) by { assert u in children <==> u in Elems(children); }
    ChildSetAfter(m, t, ids, f, id);
    GrownList(children, grows, u, ChildSet(m, id));
    assert ChildrenOf(f[id]) == children + if grows then [u] else [];
  }

  /** An old parent that lists the user's message still does, so it must still be its parent. */
  lemma OldParentRemains(m: map<Id, Message>, t: Turn, ids: seq<Id>, f: map<Id, Message>, q: Id)
    requires ChildrenExact(m) && ChildrenExact(f) && t.userId.Some? && TurnShape(m, t, ids, f)
    requires q in m && q != t.userId.value && t.userId.value in ChildSet(m, q)
    ensures UserParent(m, t) == Some(q)
  {
    var u := t.userId.value;
    assert u in Elems(ChildrenOf(m[q]));
    assert u in Elems(ChildrenOf(f[q]));
    assert u in ChildSet(f, q);
  }

  /** A sound history stays sound only if the turn's user message was acceptable. */
  lemma OnlyAcceptableParents(m: map<Id, Message>, t: Turn, ids: seq<Id>, f: map<Id, Message>)
    requires IsTree(m) && IsTree(f) && Truthy(t.userId).Some? && FreshAssistants(m, t)
    requires ids == TruthyIds(t.assistants) && TurnShape(m, t, ids, f)
    ensures var u := t.userId.value; var p := UserParent(m, t);
            && (p.Some? ==> p.value in m && p.value != u)
            && (u in m && p != ParentOf(m[u]) ==> ParentOf(m[u]).None?)
  {
    var u := t.userId.value;
    var p := UserParent(m, t);
    if p.Some? {
      NoShortCycle(ParentsOf(f), u, p.value);
      assert p.value !in ids;
    }
    if u in m && ParentOf(m[u]).Some? {
      var q := ParentOf(m[u]).value;
      NoShortCycle(ParentsOf(m), u, q);
      OldParentRemains(m, t, ids, f, q);
    }
  }

  lemma OnlyAcceptableMoves(m: map<Id, Message>, t: Turn, ids: seq<Id>, f: map<Id, Message>)
    requires IsTree(m) && IsTree(f) && Truthy(t.userId).Some? && FreshAssistants(m, t)
    requires ids == TruthyIds(t.assistants) && TurnShape(m, t, ids, f)
    ensures var u := t.userId.value; var p := UserParent(m, t);
            u in m && p.Some? ==> u !in Walk(ParentsOf(m), p.value)
  {
    var u := t.userId.value;
    var p := UserParent(m, t);
    if u in m && p.Some? {
      SubforestAcyclic(ParentsOf(f), ParentsOf(m)[u := p]);
      MoveKeepsAcyclicIff(ParentsOf(m), u, p.value);
    }
  }

  lemma OnlyAcceptableLists(m: map<Id, Message>, t: Turn, ids: seq<Id>, f: map<Id, Message>)
    requires IsTree(m) && IsTree(f) && Truthy(t.userId).Some? && FreshAssistants(m, t)
    requires ids == TruthyIds(t.assistants) && TurnShape(m, t, ids, f)
    ensures var u := t.userId.value;
            var sent := SentChildren(m, t);
            NoDup(sent) && ChildSet(m, u) <= Elems(sent) <= ChildSet(m, u) + Elems(ids)
  {
    var u := t.userId.value;
    var sent := SentChildren(m, t);
    OnlyAcceptableParents(m, t, ids, f);
    ChildSetAfter(m, t, ids, f, u);
    NoDupPrefix(sent, ChildrenOf(f[u]));
    AppendMissingSpec(sent, ids);
    forall c | c in ChildSet(m, u) ensures c in Elems(sent) {
      if c == u {
        NoShortCycle(ParentsOf(m), u, u);
      }
      assert c in ChildSet(f, u);
      assert c !in ids;
    }
    if u !in m {
      assert ChildSet(m, u) == {};
    }
  }

  lemma SoundOnlyIfAcceptable(m: map<Id, Message>, t: Turn, ids: seq<Id>, f: map<Id, Message>)
    requires IsTree(m) && IsTree(f) && Truthy(t.userId).Some? && FreshAssistants(m, t)
    requires ids == TruthyIds(t.assistants) && TurnShape(m, t, ids, f)
    ensures Acceptable(m, t)
  {
    OnlyAcceptableParents(m, t, ids, f);
    OnlyAcceptableMoves(m, t, ids, f);
    OnlyAcceptableLists(m, t, ids, f);
    if t.userId.value !in m {
      assert ChildSet(m, t.userId.value) == {};
    }
  }

  /**
   A follow-up turn with new, distinct assistant ids keeps the history a tree with
   exact children lists and a stored current message, exactly when the user's
   message it sends is acceptable.
   */
  lemma FollowUpKeepsSoundIff(h: History, t: Turn)
    requires Sound(h) && FreshAssistants(h.messages, t)
    ensures Sound(FollowUp(h, t)) <==> Acceptable(h.messages, t)
  {
    var m := h.messages;
    var ids := TruthyIds(t.assistants);
    var f := FollowUp(h, t);
    if Truthy(t.userId).None? {
      FollowUpOfRoots(h, t);
    } else {
      FollowUpShape(h, t);
      if Acceptable(m, t) {
        UserParentKeepsAcyclic(m, t);
        UserParentStored(m, t);
        TurnKeepsAcyclic(m, t, ids, f.messages);
        forall id | id in f.messages
          ensures NoDup(ChildrenOf(f.messages[id])) && Elems(ChildrenOf(f.messages[id])) == ChildSet(f.messages, id)
        {
          AcceptableListsStayExact(m, t, ids, f.messages, id);
        }
      }
      if Sound(f) {
        SoundOnlyIfAcceptable(m, t, ids, f.messages);
      }
    }
  }

  lemma FollowUpOfRoots(h: History, t: Turn)
    requires Sound(h) && FreshAssistants(h.messages, t) && Truthy(t.userId).None?
    ensures Sound(FollowUp(h, t))
  {
    var ids := TruthyIds(t.assistants);
    RootsShape(h, t);
    AddedRootsKeepTree(h.messages, ids, FollowUp(h, t).messages);
    if ids != [] {
      assert ids[|ids| - 1] in Elems(ids);
    }
  }

  lemma AddedRootsKeepTree(m: map<Id, Message>, ids: seq<Id>, f: map<Id, Message>)
    requires IsTree(m) && f.Keys == m.Keys + Elems(ids) && forall a | a in ids :: a !in m
    requires forall id | id in m :: f[id] == m[id]
    requires forall a | a in ids :: ParentOf(f[a]).None? && ChildrenOf(f[a]) == []
    ensures IsTree(f)
  {
    forall x | x in f && x !in m ensures x in ids {
    }
    AttachKeepsAcyclic(ParentsOf(m), ParentsOf(f));
    forall id | id in f ensures NoDup(ChildrenOf(f[id])) && Elems(ChildrenOf(f[id])) == ChildSet(f, id) {
      assert ChildSet(f, id) == ChildSet(m, id);
      if id !in m {
        assert ChildSet(m, id) == {};
      }
    }
  }

  /**
   A new chat with distinct assistant ids starts out sound exactly when the
   user's message has no parent; the children it sends are replaced.
   */
  lemma NewChatIsSoundIff(t: Turn)
    requires FreshAssistants(map[], t)
    ensures Sound(NewHistory(t)) <==> (Truthy(t.userId).Some? ==> ParentOf(t.user).None?)
  {
    var ids := TruthyIds(t.assistants);
    var m := NewMessages(t);
    if ids != [] {
      assert ids[0] in m;
    }
    if Truthy(t.userId).Some? {
      var u := t.userId.value;
      if ParentOf(t.user).Some? {
        var p := ParentOf(t.user).value;
        if IsTree(m) {
          NoShortCycle(ParentsOf(m), u, p);
          assert false;
        }
      } else {
        NewTreeWithUser(t, u, ids, m);
      }
    } else {
      NewTreeOfRoots(ids, m);
    }
  }

  lemma NewTreeWithUser(t: Turn, u: Id, ids: seq<Id>, m: map<Id, Message>)
    requires NoDup(ids) && u !in ids && u != ""
    requires m.Keys == {u} + Elems(ids)
    requires ParentOf(m[u]).None? && ChildrenOf(m[u]) == ids
    requires forall a | a in ids :: ParentOf(m[a]) == Some(u) && ChildrenOf(m[a]) == []
    ensures IsTree(m)
  {
    assert Ranks(ParentsOf(m), map x | x in m :: if x == u then 0 else 1) by {
      forall x | x in m ensures x == u || x in ids {}
    }
    forall id | id in m ensures NoDup(ChildrenOf(m[id])) && Elems(ChildrenOf(m[id])) == ChildSet(m, id) {
      assert ChildSet(m, u) == Elems(ids);
      if id != u {
        assert id in ids;
        assert ChildSet(m, id) == {};
      }
    }
  }

  lemma NewTreeOfRoots(ids: seq<Id>, m: map<Id, Message>)
    requires m.Keys == Elems(ids)
    requires forall a | a in ids :: ParentOf(m[a]).None? && ChildrenOf(m[a]) == []
    ensures IsTree(m)
  {
    forall id | id in m ensures id in ids && ChildSet(m, id) == {} {
      forall c | c in m ensures ParentOf(m[c]).None? {
        assert c in ids;
      }
    }
    assert Ranks(ParentsOf(m), map x | x in m :: 0);
  }

  /** Halfway through a turn the history is no tree: the parent does not list the new message yet. */
  lemma BrokenBetweenUpserts(h: History, t: Turn)
    requires Sound(h) && Truthy(t.userId).Some? && t.userId.value !in h.messages
    requires ParentOf(t.user).Some? && ParentOf(t.user).value in h.messages
    ensures !IsTree(Apply(h, UserWrite(t)).messages)
  {
    var u := t.userId.value;
    var p := ParentOf(t.user).value;
    assert UserWrite(t)[1..] == [];
    var f := Upsert(h, u, t.user).messages;
    assert u in ChildSet(f, p);
    assert u !in Elems(ChildrenOf(f[p])) by {
      assert u !in ChildSet(h.messages, p);
    }
  }
}
