/**
 Access grants: the legacy permission dictionary and the flat grants that replace
 it, and the several ways of asking who may do what.
 */
module AccessGrants {
  import opened Prelude

  datatype Grant = Grant(principalType: string, principalId: Id, permission: string)

  const PUBLIC_READ := Grant("user", "*", "read")

  // ------------------------------------------------------ legacy dictionary

  /** Ids by kind; a key may be missing. */
  datatype Principals = Principals(groupIds: Option<seq<Id>>, userIds: Option<seq<Id>>)

  datatype AccessControl = Public | Private(read: Option<Principals>, write: Option<Principals>)

  /** The empty dictionary. */
  const OWNER_ONLY := Private(None, None)

  function Section(ac: AccessControl, permission: string): Option<Principals>
    requires ac.Private?
  {
    if permission == "read" then ac.read else if permission == "write" then ac.write else None
  }

  function GroupIds(p: Option<Principals>): seq<Id>
  {
    if p.Some? && p.value.groupIds.Some? then p.value.groupIds.value else []
  }

  function UserIds(p: Option<Principals>): seq<Id>
  {
    if p.Some? && p.value.userIds.Some? then p.value.userIds.value else []
  }

  /** What the dictionary means: null is public read except for files, otherwise the listed principals. */
  ghost predicate LegacyAllows(resourceType: string, ac: AccessControl, permission: string, user: Id, groups: set<Id>)
  {
    match ac
    case Public => resourceType != "file" && permission == "read"
    case Private(_, _) =>
      var p := if permission == "read" then ac.read else ac.write;
      permission in {"read", "write"} && p.Some? && (Names(p.value.userIds, user) || exists g :: Names(p.value.groupIds, g) && g in groups)
  }

  predicate Names(ids: Option<seq<Id>>, id: Id)
  {
    ids.Some? && id in ids.value
  }

  // ------------------------------------------------------------ conversions

  function GrantsFor(principalType: string, permission: string, ids: seq<Id>): (gs: seq<Grant>)
    ensures |gs| == |ids| && forall i | 0 <= i < |ids| :: gs[i] == Grant(principalType, ids[i], permission)
  {
    seq(|ids|, i requires 0 <= i < |ids| => Grant(principalType, ids[i], permission))
  }

  function SectionGrants(permission: string, p: Option<Principals>): seq<Grant>
  {
    GrantsFor("group", permission, GroupIds(p)) + GrantsFor("user", permission, UserIds(p))
  }

  /** The grants a dictionary turns into. */
  function GrantsOf(resourceType: string, ac: AccessControl): seq<Grant>
  {
    match ac
    case Public => if resourceType != "file" then [PUBLIC_READ] else []
    case Private(read, write) => SectionGrants("read", read) + SectionGrants("write", write)
  }

  method AppendGrants(grants: seq<Grant>, principalType: string, permission: string, ids: seq<Id>) returns (all: seq<Grant>)
    ensures all == grants + GrantsFor(principalType, permission, ids)
  {
    all := grants;
    var i := 0;
    while i < |ids|
      invariant 0 <= i <= |ids|
      invariant all == grants + GrantsFor(principalType, permission, ids)[..i]
    {
      all := all + [Grant(principalType, ids[i], permission)];
      i := i + 1;
    }
  }

  method AccessControlToGrants(resourceType: string, ac: AccessControl) returns (grants: seq<Grant>)
    ensures grants == GrantsOf(resourceType, ac)
  {
    grants := [];
    if ac.Public? {
      if resourceType != "file" {
        grants := grants + [PUBLIC_READ];
      }
      return;
    }
    if ac == OWNER_ONLY {
      return;
    }
    var permissions := ["read", "write"];
    for k := 0 to 2
      invariant grants == FirstSections(ac, k)
    {
      var p := Section(ac, permissions[k]);
      NextSection(ac, k);
      if p.Some? {
        grants := AppendSection(grants, permissions[k], p);
      }
    }
  }

  function FirstSections(ac: AccessControl, k: nat): seq<Grant>
    requires ac.Private?
  {
    (if k > 0 then SectionGrants("read", ac.read) else []) + (if k > 1 then SectionGrants("write", ac.write) else [])
  }

  lemma NextSection(ac: AccessControl, k: nat)
    requires ac.Private? && k < 2
    ensures var permission := ["read", "write"][k];
            FirstSections(ac, k + 1) == FirstSections(ac, k) + SectionGrants(permission, Section(ac, permission))
    ensures var permission := ["read", "write"][k];
            Section(ac, permission).None? ==> SectionGrants(permission, Section(ac, permission)) == []
  {
  }

  method AppendSection(grants: seq<Grant>, permission: string, p: Option<Principals>) returns (all: seq<Grant>)
    ensures all == grants + SectionGrants(permission, p)
  {
    all := AppendGrants(grants, "group", permission, GroupIds(p));
    all := AppendGrants(all, "user", permission, UserIds(p));
  }

  predicate IsValid(g: Grant)
  {
    g.principalType in {"user", "group"} && g.permission in {"read", "write"}
  }

  function ValidTriples(gs: seq<Grant>): set<Grant>
  {
    set g | g in gs && IsValid(g)
  }

  function IdsGranted(gs: seq<Grant>, principalType: string, permission: string): set<Id>
  {
    set g | g in gs && g.principalType == principalType && g.permission == permission :: g.principalId
  }

  ghost predicate ListsIds(gs: seq<Grant>, p: Option<Principals>, permission: string)
  {
    && NoDup(GroupIds(p)) && Elems(GroupIds(p)) == IdsGranted(gs, "group", permission)
    && NoDup(UserIds(p)) && Elems(UserIds(p)) == IdsGranted(gs, "user", permission)
  }

  /** The dictionary a list of grants turns into, up to the order of the ids. */
  ghost predicate IsAccessControlOf(gs: seq<Grant>, ac: AccessControl)
  {
    if gs == [] then ac == OWNER_ONLY
    else if PUBLIC_READ in gs then ac == Public
    else ac.Private? && ListsIds(gs, ac.read, "read") && ListsIds(gs, ac.write, "write")
  }

  /** Four id lists, one for each permission and kind of principal. */
  datatype Lists = Lists(readGroups: seq<Id>, readUsers: seq<Id>, writeGroups: seq<Id>, writeUsers: seq<Id>)

  function AddId(ids: seq<Id>, id: Id): seq<Id>
  {
    if id in ids then ids else ids + [id]
  }

  /** One round of the conversion loop for a grant that is not public read. */
  function AddGrant(l: Lists, g: Grant): Lists
  {
    if g.permission == "read" then
      if g.principalType == "group" then l.(readGroups := AddId(l.readGroups, g.principalId))
      else if g.principalType == "user" then l.(readUsers := AddId(l.readUsers, g.principalId))
      else l
    else if g.permission == "write" then
      if g.principalType == "group" then l.(writeGroups := AddId(l.writeGroups, g.principalId))
      else if g.principalType == "user" then l.(writeUsers := AddId(l.writeUsers, g.principalId))
      else l
    else l
  }

  ghost predicate Collects(gs: seq<Grant>, ids: seq<Id>, principalType: string, permission: string)
  {
    NoDup(ids) && Elems(ids) == IdsGranted(gs, principalType, permission)
  }

  lemma CollectsNext(gs: seq<Grant>, g: Grant, ids: seq<Id>, principalType: string, permission: string)
    requires Collects(gs, ids, principalType, permission)
    ensures var matches := g.principalType == principalType && g.permission == permission;
            Collects(gs + [g], if matches then AddId(ids, g.principalId) else ids, principalType, permission)
  {
    var matches := g.principalType == principalType && g.permission == permission;
    assert IdsGranted(gs + [g], principalType, permission)
        == IdsGranted(gs, principalType, permission) + if matches then {g.principalId} else {} by {
      forall x | x in IdsGranted(gs, principalType, permission) ensures x in IdsGranted(gs + [g], principalType, permission) {
        var h :| h in gs && h.principalType == principalType && h.permission == permission && h.principalId == x;
        assert h in gs + [g];
      }
      assert g in gs + [g];
    }
    if matches && g.principalId !in ids {
      NoDupAppend(ids, g.principalId);
      assert Elems(ids + [g.principalId]) == Elems(ids) + {g.principalId};
    }
  }

  ghost predicate CollectsAll(gs: seq<Grant>, l: Lists)
  {
    && Collects(gs, l.readGroups, "group", "read") && Collects(gs, l.readUsers, "user", "read")
    && Collects(gs, l.writeGroups, "group", "write") && Collects(gs, l.writeUsers, "user", "write")
  }

  lemma CollectsAllNext(gs: seq<Grant>, g: Grant, l: Lists)
    requires CollectsAll(gs, l)
    ensures CollectsAll(gs + [g], AddGrant(l, g))
  {
    CollectsNext(gs, g, l.readGroups, "group", "read");
    CollectsNext(gs, g, l.readUsers, "user", "read");
    CollectsNext(gs, g, l.writeGroups, "group", "write");
    CollectsNext(gs, g, l.writeUsers, "user", "write");
  }

  method GrantsToAccessControl(grants: seq<Grant>) returns (ac: AccessControl)
    ensures IsAccessControlOf(grants, ac)
  {
    if grants == [] {
      return OWNER_ONLY;
    }
    var l := Lists([], [], [], []);
    var isPublic := false;
    var i := 0;
    assert CollectsAll([], l);
    while i < |grants|
      invariant 0 <= i <= |grants|
      invariant isPublic <==> PUBLIC_READ in grants[..i]
      invariant !isPublic ==> CollectsAll(grants[..i], l)
    {
      var g := grants[i];
      assert grants[..i + 1] == grants[..i] + [g];
      if g == PUBLIC_READ {
        isPublic := true;
      } else {
        if !isPublic {
          CollectsAllNext(grants[..i], g, l);
        }
        l := AddGrant(l, g);
      }
      i := i + 1;
    }
    assert grants[..i] == grants;
    if isPublic {
      return Public;
    }
    ac := Private(Some(Principals(Some(l.readGroups), Some(l.readUsers))),
                  Some(Principals(Some(l.writeGroups), Some(l.writeUsers))));
  }

  // ------------------------------------------------------------- round trip

  lemma SectionElems(permission: string, p: Option<Principals>)
    ensures forall g :: g in SectionGrants(permission, p)
                        <==> g.permission == permission
                             && ((g.principalType == "group" && g.principalId in GroupIds(p))
                                 || (g.principalType == "user" && g.principalId in UserIds(p)))
    ensures NoDup(GroupIds(p)) && NoDup(UserIds(p)) ==> NoDup(SectionGrants(permission, p))
  {
  }

  lemma SectionOfGrants(gs: seq<Grant>, p: Option<Principals>, permission: string)
    requires ListsIds(gs, p, permission)
    ensures forall g :: g in SectionGrants(permission, p)
                        <==> g in gs && g.permission == permission && g.principalType in {"user", "group"}
    ensures NoDup(SectionGrants(permission, p))
  {
    SectionElems(permission, p);
    assert forall x :: x in GroupIds(p) <==> x in Elems(GroupIds(p));
    assert forall x :: x in UserIds(p) <==> x in Elems(UserIds(p));
    forall g: Grant | g.permission == permission && g.principalType in {"user", "group"}
      ensures g in gs <==> g.principalId in IdsGranted(gs, g.principalType, permission)
    {
      if g.principalId in IdsGranted(gs, g.principalType, permission) {
        var h :| h in gs && h.principalType == g.principalType && h.permission == permission && h.principalId == g.principalId;
        assert h == g;
      }
    }
  }

  /** To the dictionary and back: without public read every valid triple survives, once. */
  lemma RoundTripKeepsTriples(resourceType: string, gs: seq<Grant>, ac: AccessControl)
    requires IsAccessControlOf(gs, ac) && PUBLIC_READ !in gs
    ensures NoDup(GrantsOf(resourceType, ac)) && Elems(GrantsOf(resourceType, ac)) == ValidTriples(gs)
  {
    if gs != [] {
      SectionOfGrants(gs, ac.read, "read");
      SectionOfGrants(gs, ac.write, "write");
      NoDupConcat(SectionGrants("read", ac.read), SectionGrants("write", ac.write));
    }
  }

  /**
   The round trip keeps the set of valid triples exactly when public read is not
   among them or, off files, is all there is; otherwise only public read is left,
   and on a file nothing.
   */
  lemma RoundTripKeepsTriplesIff(resourceType: string, gs: seq<Grant>, ac: AccessControl)
    requires IsAccessControlOf(gs, ac)
    ensures PUBLIC_READ in gs ==> GrantsOf(resourceType, ac) == if resourceType != "file" then [PUBLIC_READ] else []
    ensures Elems(GrantsOf(resourceType, ac)) == ValidTriples(gs)
            <==> PUBLIC_READ !in gs || (resourceType != "file" && ValidTriples(gs) == {PUBLIC_READ})
  {
    if PUBLIC_READ !in gs {
      RoundTripKeepsTriples(resourceType, gs, ac);
    } else {
      assert PUBLIC_READ in ValidTriples(gs);
      assert Elems([PUBLIC_READ]) == {PUBLIC_READ};
    }
  }

  // -------------------------------------------------------- one decision

  predicate Matches(g: Grant, user: Id, groups: set<Id>)
  {
    || (g.principalType == "user" && g.principalId == "*")
    || (g.principalType == "user" && g.principalId == user)
    || (g.principalType == "group" && g.principalId in groups)
  }

  predicate Allows(gs: set<Grant>, permission: string, user: Id, groups: set<Id>)
  {
    exists g :: g in gs && g.permission == permission && Matches(g, user, groups)
  }

  function LongerThanAll(ids: seq<Id>): (r: Id)
    ensures forall x | x in ids :: |x| < |r|
  {
    if ids == [] then "x"
    else
      var rest := LongerThanAll(ids[1..]);
      rest + ids[0]
  }

  lemma SomeoneElse(ids: seq<Id>) returns (user: Id)
    ensures user !in ids
  {
    user := LongerThanAll(ids);
  }

  /** The grants of one section allow the users and groups it lists, and everyone when it lists `*` as a user. */
  lemma SectionDecides(permission: string, p: Option<Principals>, user: Id, groups: set<Id>)
    ensures Allows(Elems(SectionGrants(permission, p)), permission, user, groups)
            <==> user in UserIds(p) || "*" in UserIds(p) || exists g :: g in GroupIds(p) && g in groups
  {
    SectionElems(permission, p);
    var gs := Elems(SectionGrants(permission, p));
    assert user in UserIds(p) ==> Grant("user", user, permission) in gs;
    assert "*" in UserIds(p) ==> Grant("user", "*", permission) in gs;
    forall g | g in GroupIds(p) && g in groups ensures Grant("group", g, permission) in gs {
    }
  }

  lemma DictionaryDecides(resourceType: string, ac: AccessControl, permission: string, user: Id, groups: set<Id>)
    requires permission in {"read", "write"} && ac.Private?
    ensures Allows(Elems(GrantsOf(resourceType, ac)), permission, user, groups)
            <==> LegacyAllows(resourceType, ac, permission, user, groups) || "*" in UserIds(Section(ac, permission))
  {
    var gs := GrantsOf(resourceType, ac);
    var p := Section(ac, permission);
    SectionElems("read", ac.read);
    SectionElems("write", ac.write);
    assert forall g: Grant | g.permission == permission :: g in Elems(gs) <==> g in Elems(SectionGrants(permission, p));
    SectionDecides(permission, p, user, groups);
  }

  /**
   Every decision a dictionary describes is kept by its grants, for every user and
   all groups, exactly when it does not list `*` as a user, which grants read as
   everyone.
   */
  lemma ConversionKeepsDecisionsIff(resourceType: string, ac: AccessControl, permission: string)
    requires permission in {"read", "write"}
    ensures (forall user, groups :: Allows(Elems(GrantsOf(resourceType, ac)), permission, user, groups)
                                    <==> LegacyAllows(resourceType, ac, permission, user, groups))
            <==> (ac.Private? ==> "*" !in UserIds(Section(ac, permission)))
  {
    if ac.Public? {
      assert resourceType != "file" ==> PUBLIC_READ in Elems(GrantsOf(resourceType, ac));
    } else {
      forall user, groups
        ensures Allows(Elems(GrantsOf(resourceType, ac)), permission, user, groups)
                <==> LegacyAllows(resourceType, ac, permission, user, groups) || "*" in UserIds(Section(ac, permission))
      {
        DictionaryDecides(resourceType, ac, permission, user, groups);
      }
      var stranger := SomeoneElse(UserIds(Section(ac, permission)));
      assert !LegacyAllows(resourceType, ac, permission, stranger, {});
    }
  }
}
