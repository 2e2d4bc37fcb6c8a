/**
 The grant table and the ways of asking it: one resource, a batch, a filter over
 rows, the users of a resource, and the read-only filter.
 */
module AccessQueries {
  import opened Prelude
  import opened AccessGrants

  /** A grant on a resource; the table holds each at most once. */
  datatype Row = Row(resourceType: string, resourceId: Id, grant: Grant)

  function GrantsOn(rows: set<Row>, resourceType: string, resourceId: Id): set<Grant>
  {
    set r | r in rows && r.resourceType == resourceType && r.resourceId == resourceId :: r.grant
  }

  function Others(rows: set<Row>, resourceType: string, resourceId: Id): set<Row>
  {
    set r | r in rows && !(r.resourceType == resourceType && r.resourceId == resourceId)
  }

  // ----------------------------------------------------------- setting grants

  /** A grant as a client sends it: any value, or an object with these keys. */
  datatype Sent = NotAnObject | Sent(grant: Grant)

  predicate Acceptable(s: Sent)
  {
    s.Sent? && IsValid(s.grant) && s.grant.principalId != ""
  }

  function AcceptedGrants(sent: seq<Sent>): set<Grant>
  {
    set s | s in sent && Acceptable(s) :: s.grant
  }

  /** Valid grants, each triple once. */
  method NormalizeAccessGrants(sent: seq<Sent>) returns (grants: seq<Grant>)
    ensures NoDup(grants) && Elems(grants) == AcceptedGrants(sent)
    ensures forall g :: g in grants <==> Sent(g) in sent && g.principalType in {"user", "group"} && g.principalId != ""
                                         && g.permission in {"read", "write"}
  {
    grants := [];
    var i := 0;
    while i < |sent|
      invariant 0 <= i <= |sent|
      invariant NoDup(grants) && Elems(grants) == AcceptedGrants(sent[..i])
    {
      var s := sent[i];
      AcceptedNext(sent[..i], s);
      assert sent[..i + 1] == sent[..i] + [s];
      if s.Sent? && IsValid(s.grant) && s.grant.principalId != "" {
        if s.grant !in grants {
          NoDupAppend(grants, s.grant);
          assert Elems(grants + [s.grant]) == Elems(grants) + {s.grant};
          grants := grants + [s.grant];
        } else {
          assert s.grant in Elems(grants);
        }
      }
      i := i + 1;
    }
    assert sent[..i] == sent;
    forall g ensures g in grants <==> g in AcceptedGrants(sent) {
      assert g in grants <==> g in Elems(grants);
    }
    forall g ensures g in AcceptedGrants(sent) <==> Sent(g) in sent && Acceptable(Sent(g)) {
      if g in AcceptedGrants(sent) {
        var s :| s in sent && Acceptable(s) && s.grant == g;
        assert s == Sent(g);
      }
    }
  }

  lemma AcceptedNext(sent: seq<Sent>, s: Sent)
    ensures AcceptedGrants(sent + [s]) == AcceptedGrants(sent) + if Acceptable(s) then {s.grant} else {}
  {
  }

  class AccessGrantsTable {
    var rows: set<Row>

    constructor ()
      ensures rows == {}
    {
      rows := {};
    }

    /** Replace all grants of a resource by the valid ones sent. */
    method SetAccessGrants(resourceType: string, resourceId: Id, sent: seq<Sent>) returns (grants: seq<Grant>)
      modifies this
      ensures NoDup(grants) && Elems(grants) == AcceptedGrants(sent)
      ensures GrantsOn(rows, resourceType, resourceId) == AcceptedGrants(sent)
      ensures Others(rows, resourceType, resourceId) == Others(old(rows), resourceType, resourceId)
    {
      var kept := Others(rows, resourceType, resourceId);
      grants := NormalizeAccessGrants(sent);
      rows := kept + set g | g in grants :: Row(resourceType, resourceId, g);
      ReplacedGrants(kept, resourceType, resourceId, grants);
    }

    method GrantAccess(resourceType: string, resourceId: Id, grant: Grant)
      modifies this
      ensures GrantsOn(rows, resourceType, resourceId) == GrantsOn(old(rows), resourceType, resourceId) + {grant}
      ensures Others(rows, resourceType, resourceId) == Others(old(rows), resourceType, resourceId)
    {
      var row := Row(resourceType, resourceId, grant);
      if row !in rows {
        rows := rows + {row};
      }
      assert forall r: Row :: r in rows <==> r in old(rows) || r == row;
    }

    /** Take one grant away; the result tells whether it was there. */
    method RevokeAccess(resourceType: string, resourceId: Id, grant: Grant) returns (found: bool)
      modifies this
      ensures found == (grant in GrantsOn(old(rows), resourceType, resourceId))
      ensures GrantsOn(rows, resourceType, resourceId) == GrantsOn(old(rows), resourceType, resourceId) - {grant}
      ensures Others(rows, resourceType, resourceId) == Others(old(rows), resourceType, resourceId)
    {
      var row := Row(resourceType, resourceId, grant);
      found := row in rows;
      rows := rows - {row};
      assert forall r: Row :: r in rows <==> r in old(rows) && r != row;
    }
  }

  lemma ReplacedGrants(kept: set<Row>, resourceType: string, resourceId: Id, grants: seq<Grant>)
    requires kept == Others(kept, resourceType, resourceId)
    ensures var rows := kept + set g | g in grants :: Row(resourceType, resourceId, g);
            GrantsOn(rows, resourceType, resourceId) == Elems(grants) && Others(rows, resourceType, resourceId) == kept
  {
  }

  // ------------------------------------------------------------- questions

  predicate HasAccess(rows: set<Row>, user: Id, resourceType: string, resourceId: Id, permission: string, groups: set<Id>)
  {
    Allows(GrantsOn(rows, resourceType, resourceId), permission, user, groups)
  }

  /** The batch check: resource ids selected from the grants in one query. */
  function AccessibleIds(rows: set<Row>, user: Id, resourceType: string, ids: seq<Id>, permission: string, groups: set<Id>): set<Id>
  {
    if ids == [] then {}
    else set r | r in rows && r.resourceType == resourceType && r.resourceId in ids && r.grant.permission == permission
                 && Matches(r.grant, user, groups) :: r.resourceId
  }

  /** The batch check gives what asking for each id would. */
  lemma BatchAgrees(rows: set<Row>, user: Id, resourceType: string, ids: seq<Id>, permission: string, groups: set<Id>)
    ensures AccessibleIds(rows, user, resourceType, ids, permission, groups)
            == set id | id in ids && HasAccess(rows, user, resourceType, id, permission, groups)
  {
  }

  /** Some grant on the resource gives the permission to the user, if named, or to one of the groups. */
  predicate DirectOrGroup(rows: set<Row>, resourceType: string, id: Id, permission: string, user: Option<Id>, groups: seq<Id>)
  {
    exists r :: r in rows && r.resourceType == resourceType && r.resourceId == id && r.grant.permission == permission
                && ((user.Some? && r.grant.principalType == "user" && r.grant.principalId == user.value)
                    || (r.grant.principalType == "group" && r.grant.principalId in groups))
  }

  predicate IsPublic(rows: set<Row>, resourceType: string, id: Id, permission: string)
  {
    Row(resourceType, id, Grant("user", "*", permission)) in rows
  }

  /** The filter over a table of documents with their owners; no user and no groups means no filter. */
  function PermissionFilter(rows: set<Row>, documents: map<Id, Id>, resourceType: string, permission: string,
                            user: Option<Id>, groups: seq<Id>): set<Id>
  {
    if permission == "read_only" then ReadOnlyFilter(rows, documents, resourceType, user, groups)
    else if Truthy(user).None? && groups == [] then documents.Keys
    else set d | d in documents && (|| IsPublic(rows, resourceType, d, permission)
                                    || DirectOrGroup(rows, resourceType, d, permission, Truthy(user), groups)
                                    || Truthy(user) == Some(documents[d]))
  }

  function ReadOnlyFilter(rows: set<Row>, documents: map<Id, Id>, resourceType: string, user: Option<Id>, groups: seq<Id>): set<Id>
  {
    set d | d in documents && DirectOrGroup(rows, resourceType, d, "read", Truthy(user), groups)
            && !DirectOrGroup(rows, resourceType, d, "write", Truthy(user), groups)
            && !IsPublic(rows, resourceType, d, "read")
            && Truthy(user) != Some(documents[d])
  }

  /** The single check, taken apart. */
  lemma AccessIsPublicOrDirect(rows: set<Row>, user: Id, resourceType: string, id: Id, permission: string, groups: seq<Id>)
    ensures HasAccess(rows, user, resourceType, id, permission, Elems(groups))
            <==> IsPublic(rows, resourceType, id, permission)
                 || DirectOrGroup(rows, resourceType, id, permission, Some(user), groups)
  {
  }

  /** For a named user the filter keeps the rows the user owns and those the single check allows. */
  lemma FilterAgrees(rows: set<Row>, documents: map<Id, Id>, resourceType: string, permission: string, user: Id, groups: seq<Id>)
    requires user != "" && permission != "read_only"
    ensures PermissionFilter(rows, documents, resourceType, permission, Some(user), groups)
            == set d | d in documents && (documents[d] == user
                                          || HasAccess(rows, user, resourceType, d, permission, Elems(groups)))
  {
  }

  /** Without a user the filter keeps everything, or, given groups, the rows open to everyone or to one of them. */
  lemma FilterWithoutUser(rows: set<Row>, documents: map<Id, Id>, resourceType: string, permission: string,
                          user: Option<Id>, groups: seq<Id>, d: Id)
    requires Truthy(user).None? && permission != "read_only" && d in documents
    ensures d in PermissionFilter(rows, documents, resourceType, permission, user, groups)
            <==> groups == [] || exists g :: g in GrantsOn(rows, resourceType, d) && g.permission == permission
                                             && (g == Grant("user", "*", permission)
                                                 || (g.principalType == "group" && g.principalId in groups))
  {
    PublicGrant(rows, resourceType, d, permission);
    forall g | g in GrantsOn(rows, resourceType, d) ensures Row(resourceType, d, g) in rows {
    }
    forall r | r in rows && r.resourceType == resourceType && r.resourceId == d
      ensures r.grant in GrantsOn(rows, resourceType, d)
    {
    }
  }

  /** The grant names the user or one of the groups. */
  predicate Concerns(g: Grant, user: Id, groups: seq<Id>)
  {
    (g.principalType == "user" && g.principalId == user) || (g.principalType == "group" && g.principalId in groups)
  }

  lemma DirectOrGroupIsGranted(rows: set<Row>, resourceType: string, d: Id, permission: string, user: Id, groups: seq<Id>)
    ensures DirectOrGroup(rows, resourceType, d, permission, Some(user), groups)
            <==> exists g :: g in GrantsOn(rows, resourceType, d) && g.permission == permission && Concerns(g, user, groups)
  {
    forall g | g in GrantsOn(rows, resourceType, d) ensures Row(resourceType, d, g) in rows {
    }
    forall r | r in rows && r.resourceType == resourceType && r.resourceId == d
      ensures r.grant in GrantsOn(rows, resourceType, d)
    {
    }
  }

  /**
   The read-only filter keeps the rows of others with a read grant that concerns the
   user, without one that does for writing, and without public read.
   */
  lemma ReadOnlyAgrees(rows: set<Row>, documents: map<Id, Id>, resourceType: string, user: Id, groups: seq<Id>, d: Id)
    requires user != "" && d in documents
    ensures var grants := GrantsOn(rows, resourceType, d);
            d in PermissionFilter(rows, documents, resourceType, "read_only", Some(user), groups)
            <==> && documents[d] != user && Grant("user", "*", "read") !in grants
                 && (exists g :: g in grants && g.permission == "read" && Concerns(g, user, groups))
                 && !exists g :: g in grants && g.permission == "write" && Concerns(g, user, groups)
  {
    DirectOrGroupIsGranted(rows, resourceType, d, "read", user, groups);
    DirectOrGroupIsGranted(rows, resourceType, d, "write", user, groups);
    PublicGrant(rows, resourceType, d, "read");
  }

  /**
   The filter promises rows the user may read but not write.  For a row it keeps
   that is true exactly when the row is not writable by everyone.
   */
  lemma ReadOnlyMeansNoWriteIff(rows: set<Row>, documents: map<Id, Id>, resourceType: string, user: Id, groups: seq<Id>, d: Id)
    requires user != ""
    requires d in PermissionFilter(rows, documents, resourceType, "read_only", Some(user), groups)
    ensures HasAccess(rows, user, resourceType, d, "read", Elems(groups))
    ensures !HasAccess(rows, user, resourceType, d, "write", Elems(groups)) <==> !IsPublic(rows, resourceType, d, "write")
  {
  }

  /** A row the user may read, kept as read-only although everyone may write it. */
  lemma PublicWriteIsKeptAsReadOnly()
    ensures var rows := {Row("note", "d", Grant("user", "u", "read")), Row("note", "d", Grant("user", "*", "write"))};
            && "d" in PermissionFilter(rows, map["d" := "o"], "note", "read_only", Some("u"), [])
            && HasAccess(rows, "u", "note", "d", "write", {})
  {
    var read, write := Row("note", "d", Grant("user", "u", "read")), Row("note", "d", Grant("user", "*", "write"));
    var rows := {read, write};
    assert read in rows && DirectOrGroup(rows, "note", "d", "read", Some("u"), []);
    assert write in rows && IsPublic(rows, "note", "d", "write");
    assert Elems<Id>([]) == {};
    AccessIsPublicOrDirect(rows, "u", "note", "d", "write", []);
  }

  // ------------------------------------------------- the users of a resource

  /** Users with their roles, groups, and (group, user) memberships. */
  datatype Directory = Directory(users: map<Id, string>, groups: set<Id>, members: set<(Id, Id)>)

  function GroupsOf(dir: Directory, user: Id): set<Id>
  {
    set m | m in dir.members && m.1 == user && m.0 in dir.groups :: m.0
  }

  function MembersOf(dir: Directory, group: Id): set<Id>
  {
    set m | m in dir.members && m.0 == group :: m.1
  }

  /** Memberships refer to groups that exist. */
  ghost predicate Referential(dir: Directory)
  {
    forall m | m in dir.members :: m.0 in dir.groups
  }

  /** Users named by a grant, directly or through a group. */
  function Named(dir: Directory, g: Grant): set<Id>
  {
    if g.principalType == "user" then {g.principalId}
    else if g.principalType == "group" then MembersOf(dir, g.principalId)
    else {}
  }

  ghost function NamedByAll(dir: Directory, gs: set<Grant>): set<Id>
  {
    set g, u | g in gs && u in Named(dir, g) :: u
  }

  /** A public resource lists everyone but pending users, any other whom its grants name. */
  ghost function UsersWithAccess(rows: set<Row>, resourceType: string, resourceId: Id, permission: string, dir: Directory): set<Id>
  {
    if IsPublic(rows, resourceType, resourceId, permission)
    then set u | u in dir.users && dir.users[u] != "pending"
    else set u | u in dir.users
                 && u in NamedByAll(dir, set g | g in GrantsOn(rows, resourceType, resourceId) && g.permission == permission)
  }

  method GetUsersWithAccess(rows: set<Row>, resourceType: string, resourceId: Id, permission: string, dir: Directory)
    returns (users: set<Id>)
    ensures users == UsersWithAccess(rows, resourceType, resourceId, permission, dir)
  {
    var grants := set g | g in GrantsOn(rows, resourceType, resourceId) && g.permission == permission;
    PublicGrant(rows, resourceType, resourceId, permission);
    if Grant("user", "*", permission) in grants {
      return set u | u in dir.users && dir.users[u] != "pending";
    }
    var ids: set<Id> := {};
    var todo := grants;
    while todo != {}
      invariant todo <= grants
      invariant ids == NamedByAll(dir, grants - todo)
      decreases todo
    {
      var g :| g in todo;
      NamedByOneMore(dir, grants - todo, g);
      assert grants - (todo - {g}) == (grants - todo) + {g};
      if g.principalType == "user" {
        ids := ids + {g.principalId};
      } else if g.principalType == "group" {
        ids := ids + MembersOf(dir, g.principalId);
      }
      todo := todo - {g};
    }
    assert grants - todo == grants;
    users := set u | u in dir.users && u in ids;
  }

  lemma PublicGrant(rows: set<Row>, resourceType: string, resourceId: Id, permission: string)
    ensures IsPublic(rows, resourceType, resourceId, permission)
            <==> Grant("user", "*", permission) in GrantsOn(rows, resourceType, resourceId)
  {
  }

  lemma NamedByOneMore(dir: Directory, gs: set<Grant>, g: Grant)
    ensures NamedByAll(dir, gs + {g}) == NamedByAll(dir, gs) + Named(dir, g)
  {
  }

  lemma NamedIffAllowed(rows: set<Row>, resourceType: string, resourceId: Id, permission: string, dir: Directory, u: Id)
    requires Referential(dir) && !IsPublic(rows, resourceType, resourceId, permission)
    ensures u in NamedByAll(dir, set g | g in GrantsOn(rows, resourceType, resourceId) && g.permission == permission)
            <==> HasAccess(rows, u, resourceType, resourceId, permission, GroupsOf(dir, u))
  {
    PublicGrant(rows, resourceType, resourceId, permission);
    var on := GrantsOn(rows, resourceType, resourceId);
    forall g | g in on && g.permission == permission
      ensures u in Named(dir, g) <==> Matches(g, u, GroupsOf(dir, u))
    {
      assert g.principalType == "user" && g.principalId == "*" ==> g == Grant("user", "*", permission);
      if g.principalType == "group" {
        assert u in MembersOf(dir, g.principalId) <==> (g.principalId, u) in dir.members;
        assert g.principalId in GroupsOf(dir, u) <==> (g.principalId, u) in dir.members;
      }
    }
  }

  /**
   The listed users are those the single check allows, exactly when the resource
   is not public for that permission or no user is pending: a public resource is
   listed without the pending users it allows.
   */
  lemma UsersWithAccessAgreesIff(rows: set<Row>, resourceType: string, resourceId: Id, permission: string, dir: Directory)
    requires Referential(dir)
    ensures UsersWithAccess(rows, resourceType, resourceId, permission, dir)
            == (set u | u in dir.users && HasAccess(rows, u, resourceType, resourceId, permission, GroupsOf(dir, u)))
            <==> !IsPublic(rows, resourceType, resourceId, permission) || forall u | u in dir.users :: dir.users[u] != "pending"
  {
    var allowed := set u | u in dir.users && HasAccess(rows, u, resourceType, resourceId, permission, GroupsOf(dir, u));
    if IsPublic(rows, resourceType, resourceId, permission) {
      PublicGrant(rows, resourceType, resourceId, permission);
      var g := Grant("user", "*", permission);
      forall u | u in dir.users ensures u in allowed {
        assert g in GrantsOn(rows, resourceType, resourceId) && Matches(g, u, GroupsOf(dir, u));
      }
    } else {
      forall u | u in dir.users
        ensures u in UsersWithAccess(rows, resourceType, resourceId, permission, dir) <==> u in allowed
      {
        NamedIffAllowed(rows, resourceType, resourceId, permission, dir, u);
      }
    }
  }
}
