/**
 Channel memberships: rows of (channel, user), and the query that finds a direct
 message channel by counting rows instead of comparing sets.
 */
module Channels {
  import opened Prelude

  datatype Member = Member(channelId: Id, userId: Id)

  /** Membership rows under unbounded row ids. */
  type Rows = map<nat, Member>

  /** `kinds` holds the type of each channel. */
  datatype State = State(kinds: map<Id, string>, rows: Rows)

  function RowsOf(rows: Rows, c: Id): set<nat>
  {
    set k | k in rows && rows[k].channelId == c
  }

  function MembersOf(rows: Rows, c: Id): set<Id>
  {
    set k | k in rows && rows[k].channelId == c :: rows[k].userId
  }

  predicate HasMembers(kind: string)
  {
    kind == "group" || kind == "dm"
  }

  /** At most one row for each channel and user. */
  ghost predicate Unique(rows: Rows)
  {
    forall k, k' | k in rows && k' in rows && k != k' :: rows[k] != rows[k']
  }

  ghost predicate UniqueIn(rows: Rows, c: Id)
  {
    forall k, k' | k in RowsOf(rows, c) && k' in RowsOf(rows, c) && k != k' :: rows[k].userId != rows[k'].userId
  }

  // -------------------------------------------------------------- queries

  function RowsIn(rows: Rows, c: Id, users: set<Id>): set<nat>
  {
    set k | k in RowsOf(rows, c) && rows[k].userId in users
  }

  /** The two conditions on the counts; a channel without rows is no group of the query. */
  predicate Counted(rows: Rows, c: Id, users: set<Id>)
  {
    RowsOf(rows, c) != {} && |RowsOf(rows, c)| == |users| && |RowsIn(rows, c, users)| == |users|
  }

  function DmMatches(s: State, users: set<Id>): set<Id>
  {
    set c | c in s.kinds && s.kinds[c] == "dm" && Counted(s.rows, c, users)
  }

  // ---------------------------------------------------------- operations

  /** One new row for each of the users, and no other change. */
  ghost predicate Added(rows: Rows, rows': Rows, c: Id, users: set<Id>)
  {
    && rows.Keys <= rows'.Keys && (forall k | k in rows :: rows'[k] == rows[k])
    && (forall k | k in rows' && k !in rows :: rows'[k].channelId == c && rows'[k].userId in users)
    && (forall u | u in users :: exists k :: k in rows' && k !in rows && rows'[k].userId == u)
    && (forall k, k' | k in rows' && k' in rows' && k !in rows && k' !in rows && k != k' :: rows'[k].userId != rows'[k'].userId)
  }

  datatype Op =
    | Create(channelId: Id, kind: string, user: Id, userIds: seq<Id>, groupIds: seq<Id>, groups: map<Id, set<Id>>)
    | AddMembers(channelId: Id, invitedBy: Id, userIds: seq<Id>, groupIds: seq<Id>, groups: map<Id, set<Id>>)
    | Join(channelId: Id, user: Id)
    | RemoveMembers(channelId: Id, users: set<Id>)

  function Without(rows: Rows, c: Id, users: set<Id>): Rows
  {
    map k | k in rows && !(rows[k].channelId == c && rows[k].userId in users) :: rows[k]
  }

  function Requested(invitedBy: Id, userIds: seq<Id>, groupIds: seq<Id>, groups: map<Id, set<Id>>): set<Id>
  {
    Elems(userIds) + {invitedBy} + set g, u | g in groupIds && g in groups && u in groups[g] :: u
  }

  /** One operation at a time; a created channel's id is new. */
  ghost predicate Next(s: State, op: Op, s': State)
  {
    match op
    case Create(c, kind, user, userIds, groupIds, groups) =>
      && c !in s.kinds && MembersOf(s.rows, c) == {}
      && s'.kinds == s.kinds[c := kind]
      && if HasMembers(kind) then Added(s.rows, s'.rows, c, Requested(user, userIds, groupIds, groups)) else s'.rows == s.rows
    case AddMembers(c, invitedBy, userIds, groupIds, groups) =>
      s'.kinds == s.kinds && Added(s.rows, s'.rows, c, Requested(invitedBy, userIds, groupIds, groups) - MembersOf(s.rows, c))
    case Join(c, user) => s'.kinds == s.kinds && Added(s.rows, s'.rows, c, {user} - MembersOf(s.rows, c))
    case RemoveMembers(c, users) => s'.kinds == s.kinds && s'.rows == Without(s.rows, c, users)
  }

  class ChannelTable {
    var kinds: map<Id, string>
    var members: Rows
    var nextRow: nat  // row ids from here on are unused

    ghost predicate Valid()
      reads this
    {
      forall k | k in members :: k < nextRow
    }

    ghost function Value(): State
      reads this
    {
      State(kinds, members)
    }

    constructor ()
      ensures Valid() && Value() == State(map[], map[])
    {
      kinds := map[];
      members := map[];
      nextRow := 0;
    }

    /** The inviter, the listed users, and the members of the listed groups. */
    method CollectUniqueUserIds(invitedBy: Id, userIds: seq<Id>, groupIds: seq<Id>, groups: map<Id, set<Id>>)
      returns (users: set<Id>)
      ensures users == Requested(invitedBy, userIds, groupIds, groups)
      ensures forall u :: u in users <==> Invited(invitedBy, userIds, groupIds, groups, u)
    {
      users := Elems(userIds) + {invitedBy};
      var i := 0;
      while i < |groupIds|
        invariant 0 <= i <= |groupIds|
        invariant users == Requested(invitedBy, userIds, groupIds[..i], groups)
      {
        RequestedNext(invitedBy, userIds, groupIds[..i], groupIds[i], groups);
        assert groupIds[..i + 1] == groupIds[..i] + [groupIds[i]];
        if groupIds[i] in groups {
          users := users + groups[groupIds[i]];
        }
        i := i + 1;
      }
      assert groupIds[..i] == groupIds;
    }

    method CreateMemberships(c: Id, users: set<Id>)
      requires Valid()
      modifies this
      ensures Valid() && kinds == old(kinds) && Added(old(members), members, c, users)
    {
      ghost var before := members;
      var todo := users;
      while todo != {}
        invariant Valid() && kinds == old(kinds) && todo <= users
        invariant Added(before, members, c, users - todo)
        decreases todo
      {
        var u :| u in todo;
        AddedOneMore(before, members, c, users - todo, nextRow, u);
        assert users - (todo - {u}) == (users - todo) + {u};
        members := members[nextRow := Member(c, u)];
        nextRow := nextRow + 1;
        todo := todo - {u};
      }
      assert users - todo == users;
    }

    method InsertNewChannel(c: Id, kind: string, user: Id, userIds: seq<Id>, groupIds: seq<Id>, groups: map<Id, set<Id>>)
      requires Valid() && c !in kinds && MembersOf(members, c) == {}
      modifies this
      ensures Valid()
      ensures Next(old(Value()), Create(c, kind, user, userIds, groupIds, groups), Value())
      ensures HasMembers(kind) ==> forall u :: u in MembersOf(members, c) <==> Invited(user, userIds, groupIds, groups, u)
    {
      if kind == "group" || kind == "dm" {
        var users := CollectUniqueUserIds(user, userIds, groupIds, groups);
        CreateMemberships(c, users);
      }
      kinds := kinds[c := kind];
      ghost var op := Create(c, kind, user, userIds, groupIds, groups);
      MembersAfter(old(Value()), op, Value(), c);
    }

    method AddMembersToChannel(c: Id, invitedBy: Id, userIds: seq<Id>, groupIds: seq<Id>, groups: map<Id, set<Id>>)
      requires Valid()
      modifies this
      ensures Valid()
      ensures Next(old(Value()), AddMembers(c, invitedBy, userIds, groupIds, groups), Value())
    {
      var requested := CollectUniqueUserIds(invitedBy, userIds, groupIds, groups);
      var newUsers := requested - MembersOf(members, c);
      if newUsers == {} {
        return;
      }
      CreateMemberships(c, newUsers);
    }

    method JoinChannel(c: Id, user: Id)
      requires Valid()
      modifies this
      ensures Valid() && Next(old(Value()), Join(c, user), Value())
    {
      if user in MembersOf(members, c) {
        assert {user} - MembersOf(members, c) == {};
        return;
      }
      assert {user} - MembersOf(members, c) == {user};
      AddedNone(members, c);
      AddedOneMore(members, members, c, {}, nextRow, user);
      members := members[nextRow := Member(c, user)];
      nextRow := nextRow + 1;
      assert {} + {user} == {user};
    }

    method RemoveMembersFromChannel(c: Id, userIds: seq<Id>) returns (count: nat)
      requires Valid()
      modifies this
      ensures Valid() && Next(old(Value()), RemoveMembers(c, Elems(userIds)), Value())
      ensures count == |RowsIn(old(members), c, Elems(userIds))|
    {
      count := |RowsIn(members, c, Elems(userIds))|;
      members := Without(members, c, Elems(userIds));
    }

    /** Some direct message channel the query finds, if there is one. */
    method GetDmChannelByUserIds(userIds: seq<Id>) returns (channel: Option<Id>)
      ensures channel.Some? ==> channel.value in DmMatches(Value(), Elems(userIds))
      ensures channel.None? ==> DmMatches(Value(), Elems(userIds)) == {}
    {
      var unique := Elems(userIds);
      var found := set c | c in kinds && kinds[c] == "dm" && Counted(members, c, unique);
      if found == {} {
        return None;
      }
      var c :| c in found;
      return Some(c);
    }
  }

  lemma RequestedNext(invitedBy: Id, userIds: seq<Id>, groupIds: seq<Id>, g: Id, groups: map<Id, set<Id>>)
    ensures Requested(invitedBy, userIds, groupIds + [g], groups)
            == Requested(invitedBy, userIds, groupIds, groups) + if g in groups then groups[g] else {}
  {
  }

  lemma AddedNone(rows: Rows, c: Id)
    ensures Added(rows, rows, c, {})
  {
  }

  lemma AddedOneMore(rows: Rows, rows': Rows, c: Id, users: set<Id>, k: nat, u: Id)
    requires Added(rows, rows', c, users) && k !in rows' && u !in users
    ensures Added(rows, rows'[k := Member(c, u)], c, users + {u})
  {
    var rows'' := rows'[k := Member(c, u)];
    forall v | v in users + {u} ensures exists j :: j in rows'' && j !in rows && rows''[j].userId == v {
      if v == u {
        assert k in rows'' && k !in rows && rows''[k].userId == u;
      } else {
        var j :| j in rows' && j !in rows && rows'[j].userId == v;
        assert j in rows'' && rows''[j].userId == v;
      }
    }
  }

  // ------------------------------------------------------- who is a member

  /** The user invites, is listed, or belongs to a listed group that exists. */
  ghost predicate Invited(invitedBy: Id, userIds: seq<Id>, groupIds: seq<Id>, groups: map<Id, set<Id>>, u: Id)
  {
    u == invitedBy || u in userIds || exists g :: g in groupIds && g in groups && u in groups[g]
  }

  /** Whether a user is a member of a channel after an operation. */
  ghost predicate BecomesMember(s: State, op: Op, c: Id, u: Id)
  {
    if op.channelId != c then u in MembersOf(s.rows, c)
    else match op
      case Create(_, kind, user, userIds, groupIds, groups) =>
        kind in {"group", "dm"} && Invited(user, userIds, groupIds, groups, u)
      case AddMembers(_, invitedBy, userIds, groupIds, groups) =>
        u in MembersOf(s.rows, c) || Invited(invitedBy, userIds, groupIds, groups, u)
      case Join(_, user) => u in MembersOf(s.rows, c) || u == user
      case RemoveMembers(_, users) => u in MembersOf(s.rows, c) && u !in users
  }

  lemma MembersAdded(rows: Rows, rows': Rows, c: Id, users: set<Id>, d: Id)
    requires Added(rows, rows', c, users)
    ensures MembersOf(rows', d) == MembersOf(rows, d) + if d == c then users else {}
  {
    forall u | u in MembersOf(rows, d) ensures u in MembersOf(rows', d) {
      var k :| k in rows && rows[k].channelId == d && rows[k].userId == u;
      assert k in rows' && rows'[k] == rows[k];
    }
    if d == c {
      forall u | u in users ensures u in MembersOf(rows', d) {
        var k :| k in rows' && k !in rows && rows'[k].userId == u;
        assert rows'[k].channelId == c;
      }
    }
  }

  lemma MembersLeft(rows: Rows, c: Id, users: set<Id>, d: Id)
    ensures MembersOf(Without(rows, c, users), d) == MembersOf(rows, d) - if d == c then users else {}
  {
    forall u | u in MembersOf(rows, d) - (if d == c then users else {}) ensures u in MembersOf(Without(rows, c, users), d) {
      var k :| k in rows && rows[k].channelId == d && rows[k].userId == u;
      assert k in Without(rows, c, users);
    }
  }

  /**
   A new group or direct message channel has exactly the creator, the listed users and the members
   of the listed groups; later ones are added the same way, and no other channel changes.
   */
  lemma MembersAfter(s: State, op: Op, s': State, c: Id)
    requires Next(s, op, s')
    ensures forall u :: u in MembersOf(s'.rows, c) <==> BecomesMember(s, op, c, u)
  {
    match op
    case Create(d, kind, user, userIds, groupIds, groups) =>
      if HasMembers(kind) {
        MembersAdded(s.rows, s'.rows, d, Requested(user, userIds, groupIds, groups), c);
      }
    case AddMembers(d, invitedBy, userIds, groupIds, groups) =>
      MembersAdded(s.rows, s'.rows, d, Requested(invitedBy, userIds, groupIds, groups) - MembersOf(s.rows, d), c);
    case Join(d, user) => MembersAdded(s.rows, s'.rows, d, {user} - MembersOf(s.rows, d), c);
    case RemoveMembers(d, users) => MembersLeft(s.rows, d, users, c);
  }

  lemma AddedElsewhere(rows: Rows, rows': Rows, c: Id, users: set<Id>, d: Id, some: set<Id>)
    requires Added(rows, rows', c, users) && d != c
    ensures RowsOf(rows', d) == RowsOf(rows, d) && RowsIn(rows', d, some) == RowsIn(rows, d, some)
  {
  }

  lemma AddedToNew(rows: Rows, rows': Rows, c: Id, users: set<Id>)
    requires Added(rows, rows', c, users) && MembersOf(rows, c) == {}
    ensures UniqueIn(rows', c)
  {
    assert forall k | k in rows :: rows[k].userId in MembersOf(rows, rows[k].channelId);
  }

  lemma NewDmMembers(s: State, op: Op, s': State)
    requires op.Create? && op.kind == "dm" && op.groupIds == [] && Next(s, op, s')
    ensures MembersOf(s'.rows, op.channelId) == Elems([op.user] + op.userIds)
  {
    MembersAfter(s, op, s', op.channelId);
    forall u ensures u in MembersOf(s'.rows, op.channelId) <==> u in Elems([op.user] + op.userIds) {
      assert u in MembersOf(s'.rows, op.channelId) <==> BecomesMember(s, op, op.channelId, u);
    }
  }

  /**
   A channel that a user makes with others is found under that user and the others exactly when it
   is a direct message channel.
   */
  lemma NewDmIsFoundIff(s: State, op: Op, s': State)
    requires op.Create? && op.groupIds == [] && Next(s, op, s')
    ensures op.channelId in DmMatches(s', Elems([op.user] + op.userIds)) <==> op.kind == "dm"
  {
    var c := op.channelId;
    if op.kind == "dm" {
      NewDmMembers(s, op, s');
      AddedToNew(s.rows, s'.rows, c, Requested(op.user, op.userIds, op.groupIds, op.groups));
      CountsMeanEquality(s'.rows, c, Elems([op.user] + op.userIds));
      assert op.user in Elems([op.user] + op.userIds);
    }
  }

  /** No other channel is found, or lost, by making one. */
  lemma NewChannelKeepsOthers(s: State, op: Op, s': State, d: Id, users: set<Id>)
    requires op.Create? && Next(s, op, s') && d != op.channelId
    ensures d in DmMatches(s', users) <==> d in DmMatches(s, users)
  {
    if HasMembers(op.kind) {
      AddedElsewhere(s.rows, s'.rows, op.channelId, Requested(op.user, op.userIds, op.groupIds, op.groups), d, users);
    }
  }

  // ---------------------------------------------------- at most one row each

  lemma AddedKeepsUnique(rows: Rows, rows': Rows, c: Id, users: set<Id>)
    requires Unique(rows) && Added(rows, rows', c, users) && users !! MembersOf(rows, c)
    ensures Unique(rows')
  {
  }

  lemma OpKeepsUnique(s: State, op: Op, s': State)
    requires Unique(s.rows) && Next(s, op, s')
    ensures Unique(s'.rows)
  {
    match op
    case Create(c, kind, user, userIds, groupIds, groups) =>
      if HasMembers(kind) {
        AddedKeepsUnique(s.rows, s'.rows, c, Requested(user, userIds, groupIds, groups));
      }
    case AddMembers(c, invitedBy, userIds, groupIds, groups) =>
      AddedKeepsUnique(s.rows, s'.rows, c, Requested(invitedBy, userIds, groupIds, groups) - MembersOf(s.rows, c));
    case Join(c, user) => AddedKeepsUnique(s.rows, s'.rows, c, {user} - MembersOf(s.rows, c));
    case RemoveMembers(c, users) =>
  }

  /** States and the operations between them. */
  ghost predicate IsRun(states: seq<State>, ops: seq<Op>)
  {
    && |states| == |ops| + 1
    && forall i | 0 <= i < |ops| :: Next(states[i], ops[i], states[i + 1])
  }

  lemma {:induction false} RunsKeepUnique(states: seq<State>, ops: seq<Op>, n: nat)
    requires IsRun(states, ops) && states[0] == State(map[], map[]) && n < |states|
    ensures Unique(states[n].rows)
    decreases n
  {
    if n > 0 {
      RunsKeepUnique(states, ops, n - 1);
      assert Next(states[n - 1], ops[n - 1], states[n]);
      OpKeepsUnique(states[n - 1], ops[n - 1], states[n]);
    }
  }

  // ------------------------------------------------- counting as set equality

  function UsersAt(rows: Rows, ks: set<nat>): set<Id>
    requires forall k | k in ks :: k in rows
  {
    set k | k in ks :: rows[k].userId
  }

  lemma {:induction false} CountRows(rows: Rows, ks: set<nat>)
    requires forall k | k in ks :: k in rows
    requires forall k, k' | k in ks && k' in ks && k != k' :: rows[k].userId != rows[k'].userId
    ensures |UsersAt(rows, ks)| == |ks|
    decreases ks
  {
    if ks != {} {
      var k :| k in ks;
      CountRows(rows, ks - {k});
      assert UsersAt(rows, ks) == UsersAt(rows, ks - {k}) + {rows[k].userId};
    }
  }

  lemma RowsCountMembers(rows: Rows, c: Id)
    requires UniqueIn(rows, c)
    ensures |RowsOf(rows, c)| == |MembersOf(rows, c)|
  {
    CountRows(rows, RowsOf(rows, c));
    assert UsersAt(rows, RowsOf(rows, c)) == MembersOf(rows, c);
  }

  lemma RowsCountCommon(rows: Rows, c: Id, users: set<Id>)
    requires UniqueIn(rows, c)
    ensures |RowsIn(rows, c, users)| == |MembersOf(rows, c) * users|
  {
    CountRows(rows, RowsIn(rows, c, users));
    var common := UsersAt(rows, RowsIn(rows, c, users));
    forall u | u in MembersOf(rows, c) * users ensures u in common {
      var k :| k in rows && rows[k].channelId == c && rows[k].userId == u;
      assert k in RowsIn(rows, c, users);
    }
    assert common == MembersOf(rows, c) * users;
  }

  /** Without duplicate rows the two counts say that the members are exactly the requested users. */
  lemma CountsMeanEquality(rows: Rows, c: Id, users: set<Id>)
    requires UniqueIn(rows, c)
    ensures Counted(rows, c, users) <==> users != {} && MembersOf(rows, c) == users
  {
    RowsCountMembers(rows, c);
    RowsCountCommon(rows, c, users);
    var members := MembersOf(rows, c);
    SubsetSize(members * users, members);
    SubsetSize(members * users, users);
    if members == users {
      assert members * users == users;
    }
  }

  lemma FreshUsers(taken: set<Id>, n: nat) returns (newcomers: set<Id>)
    ensures |newcomers| == n && newcomers !! taken
    decreases n
  {
    if n == 0 {
      newcomers := {};
    } else {
      var rest := FreshUsers(taken, n - 1);
      var x := NotIn(taken + rest);
      newcomers := rest + {x};
    }
  }

  lemma NotIn(s: set<Id>) returns (x: Id)
    ensures x !in s
  {
    var n := LengthBound(s);
    x := seq(n + 1, i => 'x');
  }

  lemma {:induction false} LengthBound(s: set<Id>) returns (n: nat)
    ensures forall x | x in s :: |x| <= n
    decreases s
  {
    if s == {} {
      n := 0;
    } else {
      var x :| x in s;
      var m := LengthBound(s - {x});
      n := if m < |x| then |x| else m;
      forall y | y in s ensures |y| <= n {
        assert y == x || y in s - {x};
      }
    }
  }

  lemma {:induction false} FewerUsersThanRows(rows: Rows, ks: set<nat>)
    requires forall k | k in ks :: k in rows
    ensures |UsersAt(rows, ks)| <= |ks|
    decreases ks
  {
    if ks != {} {
      var k :| k in ks;
      FewerUsersThanRows(rows, ks - {k});
      var rest := UsersAt(rows, ks - {k});
      assert UsersAt(rows, ks) == rest + {rows[k].userId};
      assert |rest + {rows[k].userId}| <= |rest| + 1;
    }
  }

  lemma DuplicatesMakeMoreRows(rows: Rows, c: Id)
    requires !UniqueIn(rows, c)
    ensures |MembersOf(rows, c)| < |RowsOf(rows, c)|
  {
    var k, k' :| k in RowsOf(rows, c) && k' in RowsOf(rows, c) && k != k' && rows[k].userId == rows[k'].userId;
    var ks := RowsOf(rows, c) - {k};
    FewerUsersThanRows(rows, ks);
    var users := UsersAt(rows, ks);
    forall u | u in MembersOf(rows, c) ensures u in users {
      var j :| j in rows && rows[j].channelId == c && rows[j].userId == u;
      assert j in ks || k' in ks;
    }
    assert MembersOf(rows, c) == users;
  }

  /**
   The counting query answers every request for the channel correctly exactly when
   the channel has no duplicate row.
   */
  lemma QueryIsExactIff(rows: Rows, c: Id)
    ensures (forall users :: Counted(rows, c, users) <==> users != {} && MembersOf(rows, c) == users) <==> UniqueIn(rows, c)
  {
    if UniqueIn(rows, c) {
      forall users ensures Counted(rows, c, users) <==> users != {} && MembersOf(rows, c) == users {
        CountsMeanEquality(rows, c, users);
      }
    } else {
      DuplicatesMakeMoreRows(rows, c);
      var members := MembersOf(rows, c);
      var extra := FreshUsers(members, |RowsOf(rows, c)| - |members|);
      var users := members + extra;
      forall k | k in RowsOf(rows, c) ensures k in RowsIn(rows, c, users) {
      }
      assert RowsIn(rows, c, users) == RowsOf(rows, c);
      assert Counted(rows, c, users) && MembersOf(rows, c) != users by {
        assert extra != {};
        var x :| x in extra;
        assert x in users && x !in members;
      }
    }
  }

  lemma UniqueEverywhere(rows: Rows, c: Id)
    requires Unique(rows)
    ensures UniqueIn(rows, c)
  {
  }

  /**
   In every state of every run, a direct message channel is found for a non-empty
   set of users exactly when one has just these members; for the empty set none is.
   */
  lemma DmQueryFindsMembers(states: seq<State>, ops: seq<Op>, n: nat, users: set<Id>)
    requires IsRun(states, ops) && states[0] == State(map[], map[]) && n < |states|
    ensures var s := states[n];
            DmMatches(s, users)
            == set c | c in s.kinds && s.kinds[c] == "dm" && users != {} && MembersOf(s.rows, c) == users
  {
    RunsKeepUnique(states, ops, n);
    var s := states[n];
    forall c ensures Counted(s.rows, c, users) <==> users != {} && MembersOf(s.rows, c) == users {
      UniqueEverywhere(s.rows, c);
      CountsMeanEquality(s.rows, c, users);
    }
  }
}
