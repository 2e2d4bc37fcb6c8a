/**
 Tags: each chat lists tag ids, and each user has rows for them. Rows are created when
 a chat is tagged, and collected when no live chat of the user carries the tag any more.
 */
module Tags {
  import opened Prelude

  datatype Chat = Chat(user: Id, archived: bool, tags: seq<Id>)

  /** A row's key: the tag and its user. */
  type Row = (Id, Id)

  datatype State = State(chats: map<Id, Chat>, rows: set<Row>)

  // ----------------------------------------------------------------- tag ids

  function SlugChar(c: char): char
  {
    if c == ' ' then '_' else if 'A' <= c <= 'Z' then c - 'A' + 'a' else c
  }

  function Slug(name: string): (r: Id)
    ensures |r| == |name|
  {
    seq(|name|, i requires 0 <= i < |name| => SlugChar(name[i]))
  }

  function Slugs(names: seq<string>): (r: seq<Id>)
    ensures |r| == |names| && forall i | 0 <= i < |names| :: r[i] == Slug(names[i])
  {
    seq(|names|, i requires 0 <= i < |names| => Slug(names[i]))
  }

  function NotNone(names: seq<string>): seq<string>
  {
    if names == [] then []
    else NotNone(names[..|names| - 1]) + if Slug(names[|names| - 1]) != "none" then [names[|names| - 1]] else []
  }

  lemma SlugOfSlug(name: string)
    ensures Slug(Slug(name)) == Slug(name)
  {
  }

  /** Every listed tag id is a slug, and so is every row's. */
  ghost predicate Slugged(s: State)
  {
    && (forall c, t | c in s.chats && t in s.chats[c].tags :: Slug(t) == t)
    && forall row | row in s.rows :: Slug(row.0) == row.0
  }

  lemma SlugsAreSlugged(names: seq<string>)
    ensures forall t | t in Slugs(names) :: Slug(t) == t
  {
  }

  lemma SluggedStays(ids: seq<Id>)
    requires forall t | t in ids :: Slug(t) == t
    ensures Slugs(ids) == ids
  {
  }

  // ---------------------------------------------------------------- queries

  /** The live chats of the user that list the tag. */
  function Carriers(chats: map<Id, Chat>, user: Id, tag: Id): set<Id>
  {
    set c | c in chats && chats[c].user == user && !chats[c].archived && tag in chats[c].tags
  }

  /** A missing tag is listed twice, so that its row would be inserted twice. */
  ghost predicate Clash(rows: set<Row>, ids: seq<Id>, user: Id)
  {
    exists i, j | 0 <= i < j < |ids| :: ids[i] == ids[j] && (ids[i], user) !in rows
  }

  function RowsFor(ids: set<Id>, user: Id): set<Row>
  {
    set t | t in ids :: (t, user)
  }

  /** Inserting the same key twice fails as a whole. */
  ghost function Ensured(rows: set<Row>, ids: seq<Id>, user: Id): set<Row>
  {
    if Clash(rows, ids, user) then rows else rows + RowsFor(Elems(ids), user)
  }

  function Orphans(chats: map<Id, Chat>, ids: set<Id>, user: Id, threshold: nat): set<Id>
  {
    set t | t in ids && |Carriers(chats, user, Slug(t))| <= threshold
  }

  function Collected(s: State, ids: set<Id>, user: Id, threshold: nat): State
  {
    s.(rows := s.rows - RowsFor(Orphans(s.chats, ids, user, threshold), user))
  }

  // -------------------------------------------------------------- operations

  datatype Op =
    | Create(id: Id, user: Id)
    | Import(id: Id, user: Id, tags: seq<Id>)
    | Add(id: Id, name: string, user: Id)
    | Update(id: Id, names: seq<string>, user: Id)
    | Remove(id: Id, name: string, user: Id)
    | Clear(id: Id, user: Id)
    | Toggle(id: Id, user: Id)
    | SetAllArchived(user: Id, archived: bool)
    | Delete(id: Id, user: Id, admin: bool)

  predicate Owns(s: State, id: Id, user: Id)
  {
    id in s.chats && s.chats[id].user == user
  }

  function WithTags(s: State, id: Id, tags: seq<Id>): State
    requires id in s.chats
  {
    s.(chats := s.chats[id := s.chats[id].(tags := tags)])
  }

  ghost function Updated(s: State, id: Id, names: seq<string>, user: Id): State
    requires id in s.chats
  {
    var ids := Slugs(NotNone(names));
    var listed := WithTags(s, id, ids);
    if Clash(s.rows, ids, user) then listed
    else
      var removed := Elems(s.chats[id].tags) - Elems(ids);
      Collected(listed.(rows := Ensured(s.rows, ids, user)), removed, user, 0)
  }

  ghost function Toggled(s: State, id: Id, user: Id): State
    requires id in s.chats
  {
    var chat := s.chats[id];
    var flipped := s.(chats := s.chats[id := chat.(archived := !chat.archived)]);
    if chat.archived then flipped.(rows := Ensured(s.rows, Slugs(chat.tags), user))
    else Collected(flipped, Elems(chat.tags), user, 0)
  }

  /** Archiving or bringing back all chats of a user touches no row. */
  function AllSet(chats: map<Id, Chat>, user: Id, archived: bool): map<Id, Chat>
  {
    map c | c in chats :: if chats[c].user == user then chats[c].(archived := archived) else chats[c]
  }

  function Deleted(s: State, id: Id, user: Id): State
    requires id in s.chats
  {
    var collected := Collected(s, Elems(s.chats[id].tags), user, 1);
    collected.(chats := s.chats - {id})
  }

  /** Adding and removing one tag leave the list in any order without duplicates. */
  ghost predicate Next(s: State, op: Op, s': State)
  {
    match op
    case Create(id, user) => id !in s.chats && s' == s.(chats := s.chats[id := Chat(user, false, [])])
    case Import(id, user, tags) => id !in s.chats && s' == s.(chats := s.chats[id := Chat(user, false, tags)])
    case Add(id, name, user) =>
      && s'.rows == s.rows + {(Slug(name), user)}
      && (if id in s.chats && Slug(name) !in s.chats[id].tags
          then exists tags :: IsListing(tags, Elems(s.chats[id].tags) + {Slug(name)}) && s'.chats == WithTags(s, id, tags).chats
          else s'.chats == s.chats)
    case Update(id, names, user) => s' == if id in s.chats then Updated(s, id, names, user) else s
    case Remove(id, name, user) =>
      if !Owns(s, id, user) then s' == s
      else exists tags :: IsListing(tags, Elems(s.chats[id].tags) - {Slug(name)}) && s' == Removed(s, id, tags, Slug(name), user)
    case Clear(id, user) =>
      s' == if Owns(s, id, user) then Collected(WithTags(s, id, []), Elems(s.chats[id].tags), user, 0) else s
    case Toggle(id, user) => s' == if Owns(s, id, user) then Toggled(s, id, user) else s
    case SetAllArchived(user, archived) => s' == s.(chats := AllSet(s.chats, user, archived))
    case Delete(id, user, admin) => s' == if id in s.chats && (admin || Owns(s, id, user)) then Deleted(s, id, user) else s
  }

  ghost predicate IsListing(tags: seq<Id>, members: set<Id>)
  {
    NoDup(tags) && Elems(tags) == members
  }

  function Removed(s: State, id: Id, tags: seq<Id>, tag: Id, user: Id): State
    requires id in s.chats
  {
    Collected(WithTags(s, id, tags), {tag}, user, 0)
  }

  // --------------------------------------------------------------- coverage

  /** Every tag on a live chat has its row. */
  ghost predicate Covered(s: State)
  {
    forall c, t | c in s.chats && !s.chats[c].archived && t in s.chats[c].tags :: (t, s.chats[c].user) in s.rows
  }

  /**
   What a caller has to check: no missing tag named twice, none brought in by an import, a
   clone, a bulk change or another user than the owner, and no archived chat deleted that
   shares a tag with one live chat.
   */
  ghost predicate Safe(s: State, op: Op)
  {
    match op
    case Import(id, user, tags) => forall t | t in tags :: (t, user) in s.rows
    case SetAllArchived(user, archived) =>
      !archived ==> forall c, t | c in s.chats && s.chats[c].user == user && t in s.chats[c].tags :: (t, user) in s.rows
    case Add(id, name, user) =>
      id in s.chats ==> s.chats[id].archived || s.chats[id].user == user || (Slug(name), s.chats[id].user) in s.rows
    case Update(id, names, user) =>
      id in s.chats && !s.chats[id].archived ==>
        if s.chats[id].user == user then !Clash(s.rows, Slugs(NotNone(names)), user)
        else forall t | t in Slugs(NotNone(names)) :: (t, s.chats[id].user) in s.rows
    case Toggle(id, user) => Owns(s, id, user) ==> !s.chats[id].archived || !Clash(s.rows, s.chats[id].tags, user)
    case Delete(id, user, admin) =>
      id in s.chats && (admin || Owns(s, id, user)) ==>
        forall t | t in s.chats[id].tags :: |Carriers(s.chats, user, t)| == 1 ==> id in Carriers(s.chats, user, t)
    case _ => true
  }

  lemma CollectingKeepsCovered(s: State, ids: set<Id>, user: Id)
    requires Slugged(s) && Covered(s)
    ensures Covered(Collected(s, ids, user, 0))
  {
    var s' := Collected(s, ids, user, 0);
    forall c, t | c in s'.chats && !s'.chats[c].archived && t in s'.chats[c].tags ensures (t, s'.chats[c].user) in s'.rows {
      if s.chats[c].user == user {
        assert Slug(t) == t && c in Carriers(s.chats, user, Slug(t));
      }
    }
  }

  lemma ClashUncovers(s: State, id: Id, user: Id)
    requires Owns(s, id, user) && !s.chats[id].archived && Clash(s.rows, s.chats[id].tags, user)
    ensures !Covered(s)
  {
  }

  /** Listing tags on a chat and making their rows keeps every live tag covered. */
  lemma ListedAndEnsured(s: State, id: Id, ids: seq<Id>, archived: bool)
    requires Covered(s) && id in s.chats && (archived || !Clash(s.rows, ids, s.chats[id].user))
    ensures var user := s.chats[id].user;
            Covered(State(s.chats[id := Chat(user, archived, ids)], Ensured(s.rows, ids, user)))
  {
  }

  lemma UpdateCoversIff(s: State, id: Id, names: seq<string>, user: Id)
    requires Slugged(s) && Covered(s) && Owns(s, id, user)
    ensures Covered(Updated(s, id, names, user))
            <==> s.chats[id].archived || !Clash(s.rows, Slugs(NotNone(names)), user)
  {
    var ids := Slugs(NotNone(names));
    SlugsAreSlugged(NotNone(names));
    var listed := WithTags(s, id, ids);
    if !s.chats[id].archived && Clash(s.rows, ids, user) {
      ClashUncovers(listed, id, user);
    } else {
      ListedAndEnsured(s, id, ids, s.chats[id].archived);
      var ensured := listed.(rows := Ensured(s.rows, ids, user));
      CollectingKeepsCovered(ensured, Elems(s.chats[id].tags) - Elems(ids), user);
    }
  }

  /** An update by another user makes rows for that user only, and the owner's must be there already. */
  lemma ForeignUpdateCoversIff(s: State, id: Id, names: seq<string>, user: Id)
    requires Slugged(s) && Covered(s) && id in s.chats && s.chats[id].user != user
    ensures Covered(Updated(s, id, names, user))
            <==> s.chats[id].archived || forall t | t in Slugs(NotNone(names)) :: (t, s.chats[id].user) in s.rows
  {
    var ids, owner := Slugs(NotNone(names)), s.chats[id].user;
    SlugsAreSlugged(NotNone(names));
    var s' := Updated(s, id, names, user);
    var ensured := WithTags(s, id, ids).(rows := Ensured(s.rows, ids, user));
    assert forall t :: (t, owner) in s'.rows <==> (t, owner) in s.rows;
    if s.chats[id].archived || forall t | t in ids :: (t, owner) in s.rows {
      assert Covered(ensured) by {
        forall c, t | c in ensured.chats && !ensured.chats[c].archived && t in ensured.chats[c].tags
          ensures (t, ensured.chats[c].user) in ensured.rows
        {
          assert c != id ==> (t, s.chats[c].user) in s.rows;
        }
      }
      CollectingKeepsCovered(ensured, Elems(s.chats[id].tags) - Elems(ids), user);
    } else {
      var t :| t in ids && (t, owner) !in s.rows;
      assert t in s'.chats[id].tags && !s'.chats[id].archived;
    }
  }

  lemma ToggleCoversIff(s: State, id: Id, user: Id)
    requires Slugged(s) && Covered(s) && Owns(s, id, user)
    ensures Covered(Toggled(s, id, user)) <==> !s.chats[id].archived || !Clash(s.rows, s.chats[id].tags, user)
  {
    var chat := s.chats[id];
    if chat.archived {
      SluggedStays(chat.tags);
      var s' := Toggled(s, id, user);
      if Clash(s.rows, chat.tags, user) {
        ClashUncovers(s', id, user);
      } else {
        ListedAndEnsured(s, id, chat.tags, false);
        assert s'.chats == s.chats[id := Chat(user, false, chat.tags)];
      }
    } else {
      CollectingKeepsCovered(s.(chats := s.chats[id := chat.(archived := true)]), Elems(chat.tags), user);
    }
  }

  lemma ImportCoversIff(s: State, id: Id, user: Id, tags: seq<Id>)
    requires Covered(s) && id !in s.chats
    ensures Covered(s.(chats := s.chats[id := Chat(user, false, tags)])) <==> forall t | t in tags :: (t, user) in s.rows
  {
    var s' := s.(chats := s.chats[id := Chat(user, false, tags)]);
    if Covered(s') {
      forall t | t in tags ensures (t, user) in s.rows {
        assert t in s'.chats[id].tags;
      }
    }
  }

  lemma AllSetCoversIff(s: State, user: Id, archived: bool)
    requires Covered(s)
    ensures Covered(s.(chats := AllSet(s.chats, user, archived)))
            <==> (!archived ==> forall c, t | c in s.chats && s.chats[c].user == user && t in s.chats[c].tags :: (t, user) in s.rows)
  {
    var s' := s.(chats := AllSet(s.chats, user, archived));
    if !archived && Covered(s') {
      forall c, t | c in s.chats && s.chats[c].user == user && t in s.chats[c].tags ensures (t, user) in s.rows {
        assert t in s'.chats[c].tags && !s'.chats[c].archived;
      }
    }
  }

  lemma OnlyMember<T>(a: set<T>, x: T)
    requires x in a && |a| <= 1
    ensures a == {x} && |a| == 1
  {
    assert {x} <= a;
    SubsetSize({x}, a);
  }

  lemma DeleteCoversIff(s: State, id: Id, user: Id)
    requires Slugged(s) && Covered(s) && id in s.chats
    ensures Covered(Deleted(s, id, user))
            <==> forall t | t in s.chats[id].tags :: |Carriers(s.chats, user, t)| == 1 ==> id in Carriers(s.chats, user, t)
  {
    var s', tags := Deleted(s, id, user), s.chats[id].tags;
    if !Covered(s') {
      var c, t :| c in s'.chats && !s'.chats[c].archived && t in s'.chats[c].tags && (t, s'.chats[c].user) !in s'.rows;
      assert (t, s.chats[c].user) in s.rows;
      assert t in tags && Slug(t) == t;
      OnlyMember(Carriers(s.chats, user, t), c);
    }
    forall t | t in tags && |Carriers(s.chats, user, t)| == 1 && id !in Carriers(s.chats, user, t) ensures !Covered(s') {
      var c :| c in Carriers(s.chats, user, t);
      assert Slug(t) == t && t in Orphans(s.chats, Elems(tags), user, 1);
      assert c in s'.chats && (t, user) !in s'.rows;
    }
  }

  lemma AddCoversIff(s: State, op: Op, s': State)
    requires Covered(s) && op.Add? && Next(s, op, s')
    ensures Covered(s') <==> Safe(s, op)
  {
    var id, tag := op.id, Slug(op.name);
    if id in s.chats && tag !in s.chats[id].tags {
      var tags :| IsListing(tags, Elems(s.chats[id].tags) + {tag}) && s'.chats == WithTags(s, id, tags).chats;
      assert forall t :: t in tags <==> t in Elems(tags);
      assert tag in s'.chats[id].tags;
      if Safe(s, op) {
        forall c, t | c in s'.chats && !s'.chats[c].archived && t in s'.chats[c].tags ensures (t, s'.chats[c].user) in s'.rows {
          assert c != id || t == tag || t in s.chats[id].tags;
        }
      }
    }
  }

  /** A chat that lists fewer tags needs fewer rows. */
  lemma FewerTagsStayCovered(s: State, id: Id, tags: seq<Id>)
    requires Slugged(s) && Covered(s) && id in s.chats && Elems(tags) <= Elems(s.chats[id].tags)
    ensures Slugged(WithTags(s, id, tags)) && Covered(WithTags(s, id, tags))
  {
    forall t | t in tags ensures t in s.chats[id].tags {
      assert t in Elems(tags);
    }
  }

  lemma RemoveKeepsCovered(s: State, op: Op, s': State)
    requires Slugged(s) && Covered(s) && op.Remove? && Next(s, op, s')
    ensures Covered(s')
  {
    if Owns(s, op.id, op.user) {
      var tag := Slug(op.name);
      var tags :| IsListing(tags, Elems(s.chats[op.id].tags) - {tag}) && s' == Removed(s, op.id, tags, tag, op.user);
      FewerTagsStayCovered(s, op.id, tags);
      CollectingKeepsCovered(WithTags(s, op.id, tags), {tag}, op.user);
    }
  }

  /** From a covered state an operation leads to a covered state exactly when it is safe. */
  lemma CoveredKeptIff(s: State, op: Op, s': State)
    requires Slugged(s) && Covered(s) && Next(s, op, s')
    ensures Covered(s') <==> Safe(s, op)
  {
    match op
    case Create(_, _) =>
    case Import(id, user, tags) => ImportCoversIff(s, id, user, tags);
    case SetAllArchived(user, archived) => AllSetCoversIff(s, user, archived);
    case Add(_, _, _) => AddCoversIff(s, op, s');
    case Update(id, names, user) =>
      if Owns(s, id, user) {
        UpdateCoversIff(s, id, names, user);
      } else if id in s.chats {
        ForeignUpdateCoversIff(s, id, names, user);
      }
    case Remove(_, _, _) => RemoveKeepsCovered(s, op, s');
    case Clear(id, user) =>
      if Owns(s, id, user) {
        FewerTagsStayCovered(s, id, []);
        CollectingKeepsCovered(WithTags(s, id, []), Elems(s.chats[id].tags), user);
      }
    case Toggle(id, user) =>
      if Owns(s, id, user) {
        ToggleCoversIff(s, id, user);
      }
    case Delete(id, user, admin) =>
      if id in s.chats && (admin || Owns(s, id, user)) {
        DeleteCoversIff(s, id, user);
      }
  }

  lemma AddKeepsSlugged(s: State, op: Op, s': State)
    requires Slugged(s) && op.Add? && Next(s, op, s')
    ensures Slugged(s')
  {
    SlugOfSlug(op.name);
    if op.id in s.chats && Slug(op.name) !in s.chats[op.id].tags {
      var tags :| IsListing(tags, Elems(s.chats[op.id].tags) + {Slug(op.name)}) && s'.chats == WithTags(s, op.id, tags).chats;
      forall t | t in tags ensures Slug(t) == t {
        assert t in Elems(tags);
      }
    }
  }

  lemma NextKeepsSlugged(s: State, op: Op, s': State)
    requires Slugged(s) && Next(s, op, s') && (op.Import? ==> Safe(s, op))
    ensures Slugged(s')
  {
    match op
    case Add(_, _, _) => AddKeepsSlugged(s, op, s');
    case Import(_, user, tags) =>
      forall t | t in tags ensures Slug(t) == t {
        assert (t, user) in s.rows && Slug((t, user).0) == (t, user).0;
      }
    case Toggle(id, user) =>
      if Owns(s, id, user) {
        SluggedStays(s.chats[id].tags);
      }
    case Update(_, names, _) => SlugsAreSlugged(NotNone(names));
    case Remove(id, name, user) =>
      if Owns(s, id, user) {
        var tags :| IsListing(tags, Elems(s.chats[id].tags) - {Slug(name)}) && s' == Removed(s, id, tags, Slug(name), user);
        forall t | t in tags ensures t in s.chats[id].tags {
          assert t in Elems(tags);
        }
      }
    case _ =>
  }

  ghost predicate IsRun(states: seq<State>, ops: seq<Op>)
  {
    && |states| == |ops| + 1
    && forall i | 0 <= i < |ops| :: Next(states[i], ops[i], states[i + 1])
  }

  /** In every run of safe operations, archiving and deletion included, each tag on a live chat has its row. */
  lemma {:induction false} SafeRunsStayCovered(states: seq<State>, ops: seq<Op>, n: nat)
    requires IsRun(states, ops) && states[0] == State(map[], {}) && n <= |ops|
    requires forall i | 0 <= i < n :: Safe(states[i], ops[i])
    ensures Slugged(states[n]) && Covered(states[n])
    decreases n
  {
    if n > 0 {
      SafeRunsStayCovered(states, ops, n - 1);
      CoveredKeptIff(states[n - 1], ops[n - 1], states[n]);
      NextKeepsSlugged(states[n - 1], ops[n - 1], states[n]);
    }
  }

  /** The first unsafe operation leaves a live chat with a tag that has no row. */
  lemma FirstUnsafeOpUncovers(states: seq<State>, ops: seq<Op>, n: nat)
    requires IsRun(states, ops) && states[0] == State(map[], {}) && n < |ops|
    requires (forall i | 0 <= i < n :: Safe(states[i], ops[i])) && !Safe(states[n], ops[n])
    ensures !Covered(states[n + 1])
  {
    SafeRunsStayCovered(states, ops, n);
    CoveredKeptIff(states[n], ops[n], states[n + 1]);
  }

  lemma TwoNamesOneSlug()
    ensures Slugs(NotNone(["A b", "a B"])) == ["a_b", "a_b"]
  {
    var names := ["A b", "a B"];
    assert Slug("A b") == "a_b" && Slug("a B") == "a_b";
    assert names[..1] == ["A b"];
    assert NotNone(["A b"]) == ["A b"];
  }

  /** Naming a missing tag twice on a live chat, by two names with the same slug. */
  lemma SameSlugTwiceUncovers(s: State, id: Id, user: Id, s': State)
    requires Slugged(s) && Covered(s) && Owns(s, id, user) && !s.chats[id].archived && ("a_b", user) !in s.rows
    requires Next(s, Update(id, ["A b", "a B"], user), s')
    ensures !Covered(s')
  {
    TwoNamesOneSlug();
    var ids := ["a_b", "a_b"];
    assert ids[0] == ids[1] && Clash(s.rows, ids, user);
    UpdateCoversIff(s, id, ["A b", "a B"], user);
  }

  /** Deleting an archived chat takes away the row of a tag that one live chat still carries. */
  lemma DeletingArchivedChatUncovers(s: State, user: Id, s': State)
    requires s == State(map["1" := Chat(user, true, ["t"]), "2" := Chat(user, false, ["t"])], {("t", user)})
    requires Next(s, Delete("1", user, false), s')
    ensures Covered(s) && !Covered(s')
  {
    assert Carriers(s.chats, user, "t") == {"2"};
    CoveredKeptIff(s, Delete("1", user, false), s');
  }

  // ------------------------------------------------------ exact collection

  /** After the owner's update a removed tag has a row just when another live chat of the user carries it. */
  lemma UpdateCollectsExactly(s: State, id: Id, names: seq<string>, user: Id, t: Id)
    requires Slugged(s) && Covered(s) && Owns(s, id, user) && !Clash(s.rows, Slugs(NotNone(names)), user)
    requires t in s.chats[id].tags && t !in Slugs(NotNone(names))
    ensures var s' := Updated(s, id, names, user); (t, user) in s'.rows <==> Carriers(s'.chats, user, t) != {}
  {
  }

  /** A tag taken off a chat keeps its row just when a live chat of the user still carries it. */
  lemma RemoveCollectsExactly(s: State, id: Id, name: string, user: Id, s': State)
    requires Slugged(s) && Covered(s) && Owns(s, id, user) && Slug(name) in s.chats[id].tags
    requires Next(s, Remove(id, name, user), s')
    ensures (Slug(name), user) in s'.rows <==> (Slug(name), user) in s.rows && Carriers(s'.chats, user, Slug(name)) != {}
    ensures Elems(s'.chats[id].tags) == Elems(s.chats[id].tags) - {Slug(name)}
    ensures forall row | row != (Slug(name), user) :: row in s'.rows <==> row in s.rows
  {
    SlugOfSlug(name);
  }

  /** So does each tag of a chat whose tags are all taken off, or that is archived. */
  lemma ClearAndArchiveCollectExactly(s: State, op: Op, s': State, row: Row)
    requires op.Clear? || (op.Toggle? && op.id in s.chats && !s.chats[op.id].archived)
    requires Slugged(s) && Owns(s, op.id, op.user) && Next(s, op, s')
    ensures row in s'.rows <==> row in s.rows && (row.1 == op.user && row.0 in s.chats[op.id].tags
                                                  ==> Carriers(s'.chats, op.user, row.0) != {})
    ensures if op.Clear? then s'.chats[op.id].tags == [] else s'.chats[op.id] == s.chats[op.id].(archived := true)
  {
    assert row in s.rows ==> Slug(row.0) == row.0;
  }

  /** A deletion takes the rows of the chat's tags that at most one live chat, itself counted, carried before it. */
  lemma DeleteCollectsExactly(s: State, op: Op, s': State, row: Row)
    requires Slugged(s) && op.Delete? && op.id in s.chats && (op.admin || Owns(s, op.id, op.user)) && Next(s, op, s')
    ensures row in s'.rows <==> row in s.rows && (row.1 == op.user && row.0 in s.chats[op.id].tags
                                                  ==> exists c, d :: c != d && c in Carriers(s.chats, op.user, row.0)
                                                                     && d in Carriers(s.chats, op.user, row.0))
    ensures s'.chats == s.chats - {op.id}
  {
    assert row in s.rows ==> Slug(row.0) == row.0;
    TwoOrFewer(Carriers(s.chats, op.user, row.0));
  }

  lemma TwoOrFewer<T>(a: set<T>)
    ensures |a| > 1 <==> exists x, y :: x != y && x in a && y in a
  {
    if |a| > 1 {
      var x :| x in a;
      assert |a - {x}| == |a| - 1;
      var y :| y in a - {x};
      assert x != y;
    }
    forall x, y | x != y && x in a && y in a ensures |a| > 1 {
      SubsetSize({x, y}, a);
    }
  }

  /** Bringing a chat back makes the missing rows of its tags, all of them or none. */
  lemma UnarchiveMakesRows(s: State, id: Id, user: Id, s': State, row: Row)
    requires Slugged(s) && Owns(s, id, user) && s.chats[id].archived && Next(s, Toggle(id, user), s')
    ensures row in s'.rows <==> row in s.rows || (row.1 == user && row.0 in s.chats[id].tags && !Clash(s.rows, s.chats[id].tags, user))
    ensures s'.chats == s.chats[id := s.chats[id].(archived := false)]
  {
    SluggedStays(s.chats[id].tags);
    assert forall t :: t in s.chats[id].tags <==> t in Elems(s.chats[id].tags);
  }

  /**
   An addition makes the row of its tag and touches no other.  An update makes those of all its tags,
   unless a missing one is named twice, and takes those of its old tags that no live chat of the user carries any more.
   */
  lemma AddAndUpdateMakeRows(s: State, op: Op, s': State, row: Row)
    requires Slugged(s) && (op.Add? || (op.Update? && op.id in s.chats)) && Next(s, op, s')
    ensures row in s'.rows
            <==> if op.Add? then row in s.rows || row == (Slug(op.name), op.user)
                 else
                   var new_, old_ := s'.chats[op.id].tags, s.chats[op.id].tags;
                   if Clash(s.rows, new_, op.user) then row in s.rows
                   else || (row.1 == op.user && row.0 in new_)
                        || (row in s.rows && (row.1 == op.user && row.0 in old_ ==> Carriers(s'.chats, op.user, row.0) != {}))
  {
    assert row in s.rows ==> Slug(row.0) == row.0;
    if op.Update? {
      SlugsAreSlugged(NotNone(op.names));
      var new_ := s'.chats[op.id].tags;
      assert forall t :: t in new_ <==> t in Elems(new_);
    }
  }

  /** Rows of other users, and of tags the update does not mention, stay. */
  lemma UpdateTouchesItsTagsOnly(s: State, id: Id, names: seq<string>, user: Id, row: Row)
    requires id in s.chats
    requires row.1 != user || (row.0 !in s.chats[id].tags && row.0 !in Slugs(NotNone(names)))
    ensures row in Updated(s, id, names, user).rows <==> row in s.rows
  {
  }

  // ------------------------------------------------- what a chat lists, and whether it is live

  /** Whether a chat lists a tag after an operation. */
  ghost predicate WillList(s: State, op: Op, c: Id, t: Id)
  {
    var lists := c in s.chats && t in s.chats[c].tags;
    if op.SetAllArchived? || op.id != c then lists
    else match op
      case Create(_, _) => false
      case Import(_, _, tags) => t in tags
      case Add(_, name, _) => lists || t == Slug(name)
      case Update(_, names, _) => t != "none" && exists n :: n in names && Slug(n) == t
      case Remove(_, name, user) => lists && !(s.chats[c].user == user && t == Slug(name))
      case Clear(_, user) => lists && s.chats[c].user != user
      case _ => lists
  }

  lemma {:induction false} NotNoneKeeps(names: seq<string>)
    ensures forall n :: n in NotNone(names) <==> n in names && Slug(n) != "none"
  {
    if names != [] {
      NotNoneKeeps(names[..|names| - 1]);
      assert names == names[..|names| - 1] + [names[|names| - 1]];
    }
  }

  lemma SlugsOf(names: seq<string>, t: Id)
    ensures t in Slugs(names) <==> exists n :: n in names && Slug(n) == t
  {
    if t in Slugs(names) {
      var i :| 0 <= i < |names| && Slugs(names)[i] == t;
      assert names[i] in names;
    }
    forall n | n in names && Slug(n) == t ensures t in Slugs(names) {
      var i :| 0 <= i < |names| && names[i] == n;
      assert Slugs(names)[i] == t;
    }
  }

  lemma ListsAfterAdd(s: State, op: Op, s': State, c: Id, t: Id)
    requires op.Add? && Next(s, op, s') && c in s'.chats
    ensures t in s'.chats[c].tags <==> WillList(s, op, c, t)
  {
    var id, tag := op.id, Slug(op.name);
    if id in s.chats && tag !in s.chats[id].tags {
      var tags :| IsListing(tags, Elems(s.chats[id].tags) + {tag}) && s'.chats == WithTags(s, id, tags).chats;
      assert t in tags <==> t in Elems(tags);
    }
  }

  lemma ListsAfterRemove(s: State, op: Op, s': State, c: Id, t: Id)
    requires op.Remove? && Next(s, op, s') && c in s'.chats
    ensures t in s'.chats[c].tags <==> WillList(s, op, c, t)
  {
    var id, tag := op.id, Slug(op.name);
    if Owns(s, id, op.user) {
      var tags :| IsListing(tags, Elems(s.chats[id].tags) - {tag}) && s' == Removed(s, id, tags, tag, op.user);
      assert t in tags <==> t in Elems(tags);
    }
  }

  /** After any operation by any user each chat lists exactly these tags; an update never lists `none`. */
  lemma TagsAfter(s: State, op: Op, s': State, c: Id, t: Id)
    requires Next(s, op, s') && c in s'.chats
    ensures t in s'.chats[c].tags <==> WillList(s, op, c, t)
    ensures c in s.chats ==> s'.chats[c].user == s.chats[c].user
  {
    match op
    case Add(_, _, _) => ListsAfterAdd(s, op, s', c, t);
    case Update(id, names, user) =>
      NotNoneKeeps(names);
      SlugsOf(NotNone(names), t);
    case Remove(_, _, _) => ListsAfterRemove(s, op, s', c, t);
    case _ =>
  }

  /** Whether a chat of the owner is archived, told from the operations alone. */
  predicate IsArchived(ops: seq<Op>, c: Id, owner: Id)
  {
    if ops == [] then false
    else
      var op, before := ops[|ops| - 1], IsArchived(ops[..|ops| - 1], c, owner);
      match op
      case Create(id, _) => before && id != c
      case Import(id, _, _) => before && id != c
      case Toggle(id, user) => if id == c && user == owner then !before else before
      case SetAllArchived(user, archived) => if user == owner then archived else before
      case _ => before
  }

  /** In every run a chat is archived just when the owner's toggles and bulk changes since it was made say so. */
  lemma {:induction false} ArchivedIff(states: seq<State>, ops: seq<Op>, n: nat, c: Id)
    requires IsRun(states, ops) && states[0] == State(map[], {}) && n <= |ops| && c in states[n].chats
    ensures states[n].chats[c].archived <==> IsArchived(ops[..n], c, states[n].chats[c].user)
    decreases n
  {
    if n > 0 {
      var s, op, s' := states[n - 1], ops[n - 1], states[n];
      assert ops[..n][..n - 1] == ops[..n - 1];
      assert Next(s, op, s');
      if c in s.chats {
        ArchivedIff(states, ops, n - 1, c);
      }
    }
  }

  // -------------------------------------------------------------- the class

  class TagStore {
    var chats: map<Id, Chat>
    var rows: set<Row>

    ghost function Value(): State
      reads this
    {
      State(chats, rows)
    }

    constructor ()
      ensures Value() == State(map[], {})
    {
      chats, rows := map[], {};
    }

    /** A row for each missing name; the insert fails when a key occurs twice in it. */
    method EnsureTagsExist(names: seq<string>, user: Id) returns (ok: bool)
      modifies this`rows
      ensures ok <==> !Clash(old(rows), Slugs(names), user)
      ensures rows == Ensured(old(rows), Slugs(names), user)
    {
      var ids := Slugs(names);
      var new_: seq<Id> := [];
      ok := true;
      for i := 0 to |names|
        invariant rows == old(rows)
        invariant forall t :: t in new_ <==> t in ids[..i] && (t, user) !in rows
        invariant ok <==> !Clash(rows, ids[..i], user)
      {
        ClashNext(rows, ids[..i], ids[i], user);
        assert ids[..i + 1] == ids[..i] + [ids[i]];
        if (ids[i], user) !in rows {
          ok := ok && ids[i] !in new_;
          new_ := new_ + [ids[i]];
        }
      }
      assert ids[..|names|] == ids;
      if ok {
        rows := rows + RowsFor(Elems(new_), user);
      }
    }

    method DeleteOrphanTags(ids: seq<Id>, user: Id, threshold: nat)
      modifies this`rows
      ensures Value() == Collected(old(Value()), Elems(ids), user, threshold)
    {
      var orphans: set<Id> := {};
      for i := 0 to |ids|
        invariant rows == old(rows) && orphans == Orphans(chats, Elems(ids[..i]), user, threshold)
      {
        assert Elems(ids[..i + 1]) == Elems(ids[..i]) + {ids[i]};
        if |Carriers(chats, user, Slug(ids[i]))| <= threshold {
          orphans := orphans + {ids[i]};
        }
      }
      assert ids[..|ids|] == ids;
      rows := rows - RowsFor(orphans, user);
    }

    /** One commit for the chat, one for the new rows, which may fail, and one for the collected rows. */
    method UpdateChatTags(id: Id, names: seq<string>, user: Id) returns (done: bool)
      modifies this
      ensures Next(old(Value()), Update(id, names, user), Value())
      ensures done <==> id in old(chats) && !Clash(old(rows), Slugs(NotNone(names)), user)
    {
      if id !in chats {
        return false;
      }
      var oldTags := chats[id].tags;
      var newTags := FilterNone(names);
      chats := chats[id := chats[id].(tags := Slugs(newTags))];
      done := EnsureTagsExist(newTags, user);
      if done {
        var removed := ListingOf(Elems(oldTags) - Elems(Slugs(newTags)));
        DeleteOrphanTags(removed, user, 0);
      }
    }

    /** The row first, then the chat's list as a set. */
    method AddChatTag(id: Id, name: string, user: Id)
      modifies this
      ensures Next(old(Value()), Add(id, name, user), Value())
    {
      var ok := EnsureTagsExist([name], user);
      assert Slugs([name]) == [Slug(name)] && Elems([Slug(name)]) == {Slug(name)};
      if id in chats && Slug(name) !in chats[id].tags {
        var tags := ListingOf(Elems(chats[id].tags) + {Slug(name)});
        chats := chats[id := chats[id].(tags := tags)];
      }
    }

    method DeleteChatTag(id: Id, name: string, user: Id)
      modifies this
      ensures Next(old(Value()), Remove(id, name, user), Value())
    {
      if id !in chats || chats[id].user != user {
        return;
      }
      var tag := Slug(name);
      var tags := ListingOf(Elems(chats[id].tags) - {tag});
      chats := chats[id := chats[id].(tags := tags)];
      SlugOfSlug(name);
      if Carriers(chats, user, tag) == {} {
        rows := rows - {(tag, user)};
      }
    }

    /** An import, or a clone with the tags of another chat. */
    method ImportChat(id: Id, user: Id, tags: seq<Id>)
      requires id !in chats
      modifies this
      ensures Next(old(Value()), Import(id, user, tags), Value())
    {
      chats := chats[id := Chat(user, false, tags)];
    }

    method SetArchivedOfAll(user: Id, archived: bool)
      modifies this
      ensures Next(old(Value()), SetAllArchived(user, archived), Value())
    {
      chats := AllSet(chats, user, archived);
    }

    method DeleteAllTags(id: Id, user: Id)
      modifies this
      ensures Next(old(Value()), Clear(id, user), Value())
    {
      if id in chats && chats[id].user == user {
        var oldTags := chats[id].tags;
        chats := chats[id := chats[id].(tags := [])];
        DeleteOrphanTags(oldTags, user, 0);
      }
    }

    method ToggleArchive(id: Id, user: Id) returns (done: bool)
      modifies this
      ensures Next(old(Value()), Toggle(id, user), Value())
    {
      if id !in chats || chats[id].user != user {
        return false;
      }
      var chat := chats[id];
      chats := chats[id := chat.(archived := !chat.archived)];
      if chat.archived {
        done := EnsureTagsExist(chat.tags, user);
      } else {
        DeleteOrphanTags(chat.tags, user, 0);
        done := true;
      }
    }

    /** The rows are collected while the chat still counts. */
    method DeleteChat(id: Id, user: Id, admin: bool)
      modifies this
      ensures Next(old(Value()), Delete(id, user, admin), Value())
    {
      if id in chats && (admin || chats[id].user == user) {
        DeleteOrphanTags(chats[id].tags, user, 1);
        chats := chats - {id};
      }
    }
  }

  lemma ClashNext(rows: set<Row>, ids: seq<Id>, t: Id, user: Id)
    ensures Clash(rows, ids + [t], user) <==> Clash(rows, ids, user) || (t in ids && (t, user) !in rows)
  {
    var ids' := ids + [t];
    if Clash(rows, ids, user) {
      var i, j :| 0 <= i < j < |ids| && ids[i] == ids[j] && (ids[i], user) !in rows;
      assert ids'[i] == ids'[j];
    } else if t in ids && (t, user) !in rows {
      var i :| 0 <= i < |ids| && ids[i] == t;
      assert ids'[i] == ids'[|ids|];
    }
  }

  method FilterNone(names: seq<string>) returns (kept: seq<string>)
    ensures kept == NotNone(names)
  {
    kept := [];
    for i := 0 to |names|
      invariant kept == NotNone(names[..i])
    {
      assert names[..i + 1][..i] == names[..i];
      if Slug(names[i]) != "none" {
        kept := kept + [names[i]];
      }
    }
    assert names[..|names|] == names;
  }

  /** A set's members in some order. */
  method ListingOf(members: set<Id>) returns (r: seq<Id>)
    ensures IsListing(r, members)
  {
    r := [];
    var rest := members;
    while rest != {}
      invariant rest <= members && IsListing(r, members - rest)
      decreases rest
    {
      var t :| t in rest;
      assert t !in Elems(r);
      NoDupAppend(r, t);
      assert Elems(r + [t]) == Elems(r) + {t} == members - (rest - {t});
      r := r + [t];
      rest := rest - {t};
    }
  }
}
