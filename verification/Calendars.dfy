/**
 Calendars: each user's default calendar, and transactions that are committed or dropped.
 */
module Calendars {
  import opened Prelude

  datatype Calendar = Calendar(user: Id, isDefault: bool)

  type Table = map<Id, Calendar>

  function Defaults(t: Table, user: Id): set<Id>
  {
    set c | c in t && t[c].user == user && t[c].isDefault
  }

  function Owned(t: Table, user: Id): set<Id>
  {
    set c | c in t && t[c].user == user
  }

  function Cleared(t: Table, user: Id): Table
  {
    map c | c in t :: if t[c].user == user then t[c].(isDefault := false) else t[c]
  }

  // -------------------------------------------------------- committed states

  datatype Op =
    | GetOrCreateDefaults(user: Id, newId: Id)
    | Insert(user: Id, newId: Id)
    | SetDefault(user: Id, id: Id)
    | Delete(id: Id)

  /** What a session of its own leaves committed; new ids are unused. */
  function After(t: Table, op: Op): Table
  {
    match op
    case GetOrCreateDefaults(user, newId) => if Owned(t, user) == {} then t[newId := Calendar(user, true)] else t
    case Insert(user, newId) => t[newId := Calendar(user, false)]
    case SetDefault(user, id) => if id in Owned(t, user) then Cleared(t, user)[id := Calendar(user, true)] else t
    case Delete(id) => if id in t && !t[id].isDefault then t - {id} else t
  }

  ghost predicate IsRun(states: seq<Table>, ops: seq<Op>)
  {
    && |states| == |ops| + 1
    && forall i | 0 <= i < |ops| ::
         (!(ops[i].SetDefault? || ops[i].Delete?) ==> ops[i].newId !in states[i]) && states[i + 1] == After(states[i], ops[i])
  }

  class CalendarTable {
    var committed: Table

    constructor ()
      ensures committed == map[]
    {
      committed := map[];
    }

    method GetOrCreateDefaults(user: Id, newId: Id)
      modifies this
      ensures committed == After(old(committed), Op.GetOrCreateDefaults(user, newId))
    {
      if Owned(committed, user) != {} {
        return;
      }
      committed := committed[newId := Calendar(user, true)];
    }

    method InsertNewCalendar(user: Id, newId: Id)
      modifies this
      ensures committed == After(old(committed), Insert(user, newId))
    {
      committed := committed[newId := Calendar(user, false)];
    }

    /** The session's copy is cleared first, and is dropped when the calendar is not the user's. */
    method SetDefaultCalendar(user: Id, id: Id) returns (done: bool)
      modifies this
      ensures committed == After(old(committed), SetDefault(user, id))
      ensures done <==> id in Owned(old(committed), user)
      ensures !done ==> committed == old(committed)
    {
      var session := Cleared(committed, user);
      if id !in session || session[id].user != user {
        return false;
      }
      session := session[id := session[id].(isDefault := true)];
      committed := session;
      return true;
    }

    method DeleteCalendar(id: Id) returns (done: bool)
      modifies this
      ensures committed == After(old(committed), Delete(id))
      ensures done <==> id in old(committed) && !old(committed)[id].isDefault
    {
      if id !in committed || committed[id].isDefault {
        return false;
      }
      committed := committed - {id};
      return true;
    }
  }

  // --------------------------------------------------- one default for ever

  lemma DefaultsAfter(t: Table, op: Op, user: Id)
    requires |Defaults(t, user)| <= 1
    requires !(op.SetDefault? || op.Delete?) ==> op.newId !in t
    ensures var d := Defaults(After(t, op), user);
            && |d| <= 1
            && (|Defaults(t, user)| == 1 ==> |d| == 1)
            && (op.SetDefault? && op.user == user && op.id in Owned(t, user) ==> d == {op.id})
  {
    var t' := After(t, op);
    if op.SetDefault? && op.user == user && op.id in Owned(t, user) {
      assert Defaults(t', user) == {op.id};
    } else if op.GetOrCreateDefaults? && op.user == user && Owned(t, user) == {} {
      forall c | c in Defaults(t', user) ensures c == op.newId {
        assert c in t ==> c in Owned(t, user);
      }
      assert Defaults(t', user) == {op.newId};
      assert Defaults(t, user) <= Owned(t, user);
    } else {
      assert Defaults(t', user) == Defaults(t, user);
    }
  }

  /** Every committed state of a run gives each user at most one default, and a user who has one keeps having one. */
  lemma {:induction false} OneDefaultForEver(states: seq<Table>, ops: seq<Op>, user: Id, n: nat)
    requires IsRun(states, ops) && states[0] == map[] && n <= |ops|
    ensures |Defaults(states[n], user)| <= 1
    ensures forall m | 0 <= m <= n :: |Defaults(states[m], user)| == 1 ==> |Defaults(states[n], user)| == 1
    decreases n
  {
    if n == 0 {
      assert Defaults(states[0], user) == {};
    } else {
      OneDefaultForEver(states, ops, user, n - 1);
      DefaultsAfter(states[n - 1], ops[n - 1], user);
    }
  }

  /** A step at which a default is made for the user: the first calendar of all, or a chosen one. */
  predicate MakesDefault(t: Table, op: Op, user: Id)
  {
    match op
    case GetOrCreateDefaults(u, _) => u == user && Owned(t, user) == {}
    case SetDefault(u, id) => u == user && id in Owned(t, user)
    case _ => false
  }

  lemma NoDefaultAppears(t: Table, op: Op, user: Id)
    requires Defaults(t, user) == {} && (!(op.SetDefault? || op.Delete?) ==> op.newId !in t)
    ensures Defaults(After(t, op), user) != {} <==> MakesDefault(t, op, user)
  {
    match op
    case GetOrCreateDefaults(u, newId) =>
      if u == user && Owned(t, user) == {} {
        assert newId in Defaults(After(t, op), user);
      }
    case SetDefault(u, id) =>
      if u == user && id in Owned(t, user) {
        assert id in Defaults(After(t, op), user);
      }
    case _ =>
  }

  /**
   A user has a default exactly when one was made at some earlier step: one who adds a
   calendar before ever asking for the default ones has none until choosing one.
   */
  lemma {:induction false} DefaultExistsIff(states: seq<Table>, ops: seq<Op>, user: Id, n: nat)
    requires IsRun(states, ops) && states[0] == map[] && n <= |ops|
    ensures Defaults(states[n], user) != {} <==> exists i :: 0 <= i < n && MakesDefault(states[i], ops[i], user)
    decreases n
  {
    if n == 0 {
      assert Defaults(states[0], user) == {};
    } else {
      DefaultExistsIff(states, ops, user, n - 1);
      OneDefaultForEver(states, ops, user, n - 1);
      DefaultsAfter(states[n - 1], ops[n - 1], user);
      if Defaults(states[n - 1], user) == {} {
        NoDefaultAppears(states[n - 1], ops[n - 1], user);
      } else {
        OneOrNone(Defaults(states[n - 1], user));
      }
    }
  }

  /** The default that the user was last given in the run. */
  function LastMade(states: seq<Table>, ops: seq<Op>, user: Id, n: nat): set<Id>
    requires n <= |ops| && |ops| < |states|
  {
    if n == 0 then {}
    else if !MakesDefault(states[n - 1], ops[n - 1], user) then LastMade(states, ops, user, n - 1)
    else {if ops[n - 1].SetDefault? then ops[n - 1].id else ops[n - 1].newId}
  }

  /** A user's default is the one that was made or chosen last. */
  lemma {:induction false} DefaultIsLastMade(states: seq<Table>, ops: seq<Op>, user: Id, n: nat)
    requires IsRun(states, ops) && states[0] == map[] && n <= |ops|
    ensures Defaults(states[n], user) == LastMade(states, ops, user, n)
    decreases n
  {
    if n > 0 {
      var t, op := states[n - 1], ops[n - 1];
      DefaultIsLastMade(states, ops, user, n - 1);
      OneDefaultForEver(states, ops, user, n - 1);
      DefaultsAfter(t, op, user);
      if op.GetOrCreateDefaults? && MakesDefault(t, op, user) {
        assert op.newId in Defaults(states[n], user);
        OneOrNone(Defaults(states[n], user));
        Single(Defaults(states[n], user), op.newId);
      } else if !MakesDefault(t, op, user) {
        assert Defaults(states[n], user) == Defaults(t, user);
      }
    }
  }

  lemma Single(d: set<Id>, x: Id)
    requires |d| == 1 && x in d
    ensures d == {x}
  {
    SubsetSize({x}, d);
  }

  /** The step deletes the calendar, which is not its owner's default. */
  predicate Deletes(t: Table, op: Op, c: Id)
  {
    op == Delete(c) && c in t && !t[c].isDefault
  }

  predicate Makes(op: Op, c: Id)
  {
    (op.Insert? || op.GetOrCreateDefaults?) && op.newId == c
  }

  /**
   A calendar, once there, is gone exactly when some step deleted it while it was no default, and
   until then keeps its owner: no deletion or choice of another one touches it.
   */
  lemma {:induction false} StaysUntilDeleted(states: seq<Table>, ops: seq<Op>, c: Id, m: nat, n: nat)
    requires IsRun(states, ops) && m <= n <= |ops| && c in states[m]
    requires forall i | m <= i < n :: !Makes(ops[i], c)
    ensures c in states[n] <==> forall i | m <= i < n :: !Deletes(states[i], ops[i], c)
    ensures c in states[n] ==> states[n][c].user == states[m][c].user
    decreases n
  {
    if n > m {
      StaysUntilDeleted(states, ops, c, m, n - 1);
      assert states[n] == After(states[n - 1], ops[n - 1]);
    }
  }

  /** A calendar appears only by being made, for the user who asked for it. */
  lemma AppearsWhenMade(t: Table, op: Op, c: Id)
    requires c !in t
    ensures c in After(t, op) <==> Makes(op, c) && (op.GetOrCreateDefaults? ==> Owned(t, op.user) == {})
    ensures c in After(t, op) ==> After(t, op)[c].user == op.user
  {
  }

  lemma OneOrNone(d: set<Id>)
    requires d != {} && |d| <= 1
    ensures |d| == 1
  {
  }

  /** Two steps after which the user has a calendar and, though asking, no default. */
  lemma EarlyCalendarLeavesNoDefault()
    ensures var t := After(After(map[], Insert("u", "c")), GetOrCreateDefaults("u", "d"));
            Owned(t, "u") == {"c"} && Defaults(t, "u") == {}
  {
    var t := After(map[], Insert("u", "c"));
    assert "c" in Owned(t, "u");
    assert After(t, GetOrCreateDefaults("u", "d")) == t;
  }
}
