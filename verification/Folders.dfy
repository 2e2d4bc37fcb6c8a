/**
 Folders: the folders of a user form a forest, listed and deleted by subtree.  A
 deletion commits after every folder it removes.
 */
module Folders {
  import opened Prelude
  import opened Forest

  datatype Folder = Folder(userId: Id, parentId: Option<Id>)

  type Rows = map<Id, Folder>

  /** The parent links among the folders of one user. */
  function ParentsFor(rows: Rows, user: Id): Parents
  {
    map x | x in rows && rows[x].userId == user :: rows[x].parentId
  }

  function ChildrenIn(p: Parents, folder: Id): set<Id>
  {
    set c | c in p && p[c] == Some(folder)
  }

  // ----------------------------------------------------------- subtrees

  /** Nodes at or below one of cs. */
  ghost function SubtreesOf(p: Parents, cs: set<Id>): set<Id>
  {
    set y | y in p && InSubtreeOf(p, y, cs)
  }

  ghost predicate InSubtreeOf(p: Parents, y: Id, cs: set<Id>)
  {
    exists c :: c in cs && InSubtree(p, y, c)
  }

  lemma SubtreeIsBelow(p: Parents, c: Id)
    requires Acyclic(p) && c in p
    ensures SubtreesOf(p, {c}) == Descendants(p, c) + {c}
  {
  }

  /** What lies below a folder is what lies at or below its children. */
  lemma BelowIsChildrensSubtrees(p: Parents, folder: Id)
    requires Acyclic(p) && folder in p
    ensures SubtreesOf(p, ChildrenIn(p, folder)) == Descendants(p, folder)
  {
    forall y | y in p ensures y in SubtreesOf(p, ChildrenIn(p, folder)) <==> Below(p, y, folder) {
      ChildrensSubtree(p, folder, y);
    }
  }

  lemma {:induction false} ChildrensSubtree(p: Parents, folder: Id, y: Id)
    requires Acyclic(p) && folder in p && y in p
    ensures (exists c :: c in ChildrenIn(p, folder) && InSubtree(p, y, c)) <==> Below(p, y, folder)
  {
    var rank :| Ranks(p, rank);
    ClimbToChild(p, rank, folder, y);
  }

  lemma {:induction false} ClimbToChild(p: Parents, rank: map<Id, nat>, folder: Id, y: Id)
    requires Ranks(p, rank) && folder in p && y in p
    ensures (exists c :: c in ChildrenIn(p, folder) && InSubtree(p, y, c)) <==> Below(p, y, folder)
    decreases rank[y]
  {
    BelowUnfold(p, y, folder);
    SubtreeStep(p, y, y);
    if p[y] == Some(folder) {
      assert y in ChildrenIn(p, folder);
    } else if p[y].Some? && p[y].value in p {
      var q := p[y].value;
      ClimbToChild(p, rank, folder, q);
      forall c | c in ChildrenIn(p, folder) ensures InSubtree(p, y, c) <==> InSubtree(p, q, c) {
        SubtreeStep(p, y, c);
      }
    } else {
      forall c | c in ChildrenIn(p, folder) ensures !InSubtree(p, y, c) {
        SubtreeStep(p, y, c);
      }
    }
  }

  /** Siblings have no descendant in common. */
  lemma {:induction false} SiblingsAreDisjoint(p: Parents, rank: map<Id, nat>, folder: Id, c: Id, c': Id, y: Id)
    requires Ranks(p, rank) && folder in p && c in ChildrenIn(p, folder) && c' in ChildrenIn(p, folder) && y in p
    requires InSubtree(p, y, c) && InSubtree(p, y, c')
    ensures c == c'
    decreases rank[y]
  {
    SubtreeStep(p, y, c);
    SubtreeStep(p, y, c');
    if y == c || y == c' {
      WalkUnfold(p, y);
      WalkRanks(p, rank, folder, {});
    } else {
      SiblingsAreDisjoint(p, rank, folder, c, c', p[y].value);
    }
  }

  /** Folders of the user, each the parent of the one before. */
  ghost predicate IsChain(rows: Rows, user: Id, chain: seq<Id>)
  {
    && (forall i | 0 <= i < |chain| :: chain[i] in rows && rows[chain[i]].userId == user)
    && forall i | 0 <= i < |chain| - 1 :: rows[chain[i]].parentId == Some(chain[i + 1])
  }

  lemma {:induction false} ChainClimbs(rows: Rows, user: Id, chain: seq<Id>)
    requires Acyclic(ParentsFor(rows, user)) && IsChain(rows, user, chain) && chain != []
    ensures chain[|chain| - 1] in Walk(ParentsFor(rows, user), chain[0])
    decreases |chain|
  {
    WalkUnfold(ParentsFor(rows, user), chain[0]);
    if |chain| > 1 {
      assert rows[chain[0]].parentId == Some(chain[1]);
      ChainClimbs(rows, user, chain[1..]);
    }
  }

  lemma {:induction false} ClimbIsChain(rows: Rows, user: Id, rank: map<Id, nat>, y: Id, folder: Id) returns (chain: seq<Id>)
    requires Ranks(ParentsFor(rows, user), rank) && y in rank && folder in Walk(ParentsFor(rows, user), y)
    ensures chain != [] && chain[0] == y && chain[|chain| - 1] == folder && IsChain(rows, user, chain)
    decreases rank[y]
  {
    var p := ParentsFor(rows, user);
    WalkUnfold(p, y);
    chain := [y];
    if y != folder {
      var rest := ClimbIsChain(rows, user, rank, p[y].value, folder);
      chain := [y] + rest;
    }
  }

  /** What is listed and deleted with a folder: the user's own folders that lead up to it over the user's own folders. */
  lemma BelowIffChain(rows: Rows, user: Id, folder: Id, y: Id)
    requires Acyclic(ParentsFor(rows, user))
    ensures y in Descendants(ParentsFor(rows, user), folder)
            <==> y != folder && exists chain :: IsChain(rows, user, chain) && |chain| > 1 && chain[0] == y && chain[|chain| - 1] == folder
  {
    var p := ParentsFor(rows, user);
    if y in Descendants(p, folder) {
      var rank :| Ranks(p, rank);
      var chain := ClimbIsChain(rows, user, rank, y, folder);
    }
    forall chain | IsChain(rows, user, chain) && |chain| > 1 && chain[0] == y && chain[|chain| - 1] == folder
      ensures folder in Walk(p, y)
    {
      ChainClimbs(rows, user, chain);
    }
  }

  // ------------------------------------------------------------ removals

  /** With a node, every node below it is gone. */
  ghost predicate ClosedBelow(p: Parents, gone: set<Id>)
  {
    forall y | y in p && p[y].Some? && p[y].value in gone :: y in gone
  }

  lemma SubtreesAreClosed(p: Parents, cs: set<Id>)
    requires Acyclic(p)
    ensures ClosedBelow(p, SubtreesOf(p, cs))
  {
    forall y | y in p && p[y].Some? && p[y].value in SubtreesOf(p, cs) ensures y in SubtreesOf(p, cs) {
      var c :| c in cs && InSubtree(p, p[y].value, c);
      WalkUnfold(p, y);
      assert InSubtree(p, y, c);
    }
  }

  /** A node that stays keeps its whole climb. */
  lemma {:induction false} WalkAfterRemoval(p: Parents, gone: set<Id>, y: Id, visited: set<Id>)
    requires ClosedBelow(p, gone) && y !in gone
    ensures Walk(p - gone, y, visited) == Walk(p, y, visited)
    decreases p.Keys - visited
  {
    if y in p && y !in visited && p[y].Some? && p[y].value !in gone {
      WalkAfterRemoval(p, gone, p[y].value, visited + {y});
    }
  }

  lemma SubtreeOutside(p: Parents, folder: Id, done: set<Id>, c: Id)
    requires Acyclic(p) && folder in p && done <= ChildrenIn(p, folder) && c in ChildrenIn(p, folder) && c !in done
    ensures SubtreesOf(p, {c}) !! SubtreesOf(p, done)
  {
    var rank :| Ranks(p, rank);
    forall y | y in SubtreesOf(p, {c}) ensures y !in SubtreesOf(p, done) {
      forall c' | c' in done && InSubtree(p, y, c') ensures c' == c {
        SiblingsAreDisjoint(p, rank, folder, c, c', y);
      }
    }
  }

  lemma BelowOutside(p: Parents, gone: set<Id>, c: Id)
    requires Acyclic(p) && ClosedBelow(p, gone) && c in p && (Descendants(p, c) + {c}) !! gone
    ensures Acyclic(p - gone) && Descendants(p - gone, c) == Descendants(p, c)
  {
    SubforestAcyclic(p, p - gone);
    forall y | y in p && y !in gone ensures Below(p - gone, y, c) <==> Below(p, y, c) {
      WalkAfterRemoval(p, gone, y, {});
    }
    forall y ensures y in Descendants(p - gone, c) <==> y in Descendants(p, c) {
    }
  }

  /** Removing some siblings' subtrees leaves the others' as they are. */
  lemma BelowAfterRemoval(p: Parents, folder: Id, done: set<Id>, c: Id)
    requires Acyclic(p) && folder in p && done <= ChildrenIn(p, folder) && c in ChildrenIn(p, folder) && c !in done
    ensures var gone := SubtreesOf(p, done);
            && Acyclic(p - gone) && c in p - gone
            && SubtreesOf(p, {c}) !! gone
            && Descendants(p - gone, c) == Descendants(p, c)
  {
    SubtreesAreClosed(p, done);
    SubtreeOutside(p, folder, done, c);
    SubtreeIsBelow(p, c);
    BelowOutside(p, SubtreesOf(p, done), c);
  }

  // --------------------------------------------------- order of a listing

  /** Each listed folder comes after all its children. */
  ghost predicate ChildrenFirst(p: Parents, s: seq<Id>)
  {
    forall k | 0 <= k < |s| :: forall c | c in p && p[c] == Some(s[k]) :: c in s[..k]
  }

  /** s lists what lies below the folder, each once, children first. */
  ghost predicate ListsBelow(p: Parents, folder: Id, s: seq<Id>)
  {
    NoDup(s) && Elems(s) == Descendants(p, folder) && ChildrenFirst(p, s)
  }

  ghost predicate ListsSubtrees(p: Parents, cs: set<Id>, s: seq<Id>)
  {
    NoDup(s) && Elems(s) == SubtreesOf(p, cs) && ChildrenFirst(p, s)
  }

  lemma AppendTail(listed: seq<Id>, sub: seq<Id>, c: Id)
    requires NoDup(listed) && NoDup(sub) && c !in Elems(sub) && (Elems(sub) + {c}) !! Elems(listed)
    ensures NoDup(listed + sub + [c]) && Elems(listed + sub + [c]) == Elems(listed) + (Elems(sub) + {c})
  {
    assert c !in sub;
    NoDupAppend(sub, c);
    forall y | y in listed ensures y !in sub + [c] {
      assert y in Elems(listed);
      assert y !in Elems(sub) + {c};
    }
    NoDupConcat(listed, sub + [c]);
    assert listed + sub + [c] == listed + (sub + [c]);
  }

  lemma TailElems(p: Parents, folder: Id, done: set<Id>, listed: seq<Id>, c: Id, sub: seq<Id>)
    requires Acyclic(p) && folder in p && done <= ChildrenIn(p, folder) && c in ChildrenIn(p, folder) && c !in done
    requires NoDup(listed) && Elems(listed) == SubtreesOf(p, done)
    requires NoDup(sub) && Elems(sub) == Descendants(p, c)
    ensures NoDup(listed + sub + [c]) && Elems(listed + sub + [c]) == SubtreesOf(p, done + {c})
  {
    SubtreeOutside(p, folder, done, c);
    SubtreeIsBelow(p, c);
    AppendTail(listed, sub, c);
    UnionOfSubtrees(p, done, c);
  }

  /** Listing one more child's subtree: first what is below it, then the child. */
  lemma OneMoreSubtree(p: Parents, folder: Id, done: set<Id>, listed: seq<Id>, c: Id, sub: seq<Id>)
    requires Acyclic(p) && folder in p && done <= ChildrenIn(p, folder) && c in ChildrenIn(p, folder) && c !in done
    requires ListsSubtrees(p, done, listed)
    requires ListsBelow(p - Elems(listed), c, sub)
    ensures ListsSubtrees(p, done + {c}, listed + sub + [c])
  {
    BelowAfterRemoval(p, folder, done, c);
    TailElems(p, folder, done, listed, c, sub);
    TailChildrenFirst(p, listed, c, sub);
  }

  lemma UnionOfSubtrees(p: Parents, done: set<Id>, c: Id)
    ensures SubtreesOf(p, done + {c}) == SubtreesOf(p, done) + SubtreesOf(p, {c})
  {
  }

  lemma TailChildrenFirst(p: Parents, listed: seq<Id>, c: Id, sub: seq<Id>)
    requires Acyclic(p) && c in p && ChildrenFirst(p, listed) && ChildrenFirst(p - Elems(listed), sub)
    requires Elems(sub) == Descendants(p, c)
    ensures ChildrenFirst(p, listed + sub + [c])
  {
    var s := listed + sub + [c];
    forall k, x | 0 <= k < |s| && x in p && p[x] == Some(s[k]) ensures x in s[..k] {
      if k < |listed| {
        assert s[k] == listed[k] && s[..k] == listed[..k];
      } else if k < |listed| + |sub| {
        var j := k - |listed|;
        assert s[k] == sub[j] && s[..k] == listed + sub[..j];
        if x !in Elems(listed) {
          assert x in p - Elems(listed);
          assert x in sub[..j];
        }
      } else {
        assert s[k] == c && s[..k] == listed + sub;
        BelowUnfold(p, x, c);
        NoSelfParent(p, x, c);
        assert x in Descendants(p, c);
        assert x in Elems(sub);
      }
    }
  }

  lemma NoSelfParent(p: Parents, x: Id, c: Id)
    requires Acyclic(p) && x in p && p[x] == Some(c)
    ensures x != c
  {
  }

  // -------------------------------------------------------------- commits

  /** The states committed by deleting folders one after another. */
  function CommitsOf(rows: Rows, ids: seq<Id>): seq<Rows>
  {
    if ids == [] then [] else [rows - {ids[0]}] + CommitsOf(rows - {ids[0]}, ids[1..])
  }

  lemma {:induction false} CommitsConcat(rows: Rows, a: seq<Id>, b: seq<Id>)
    ensures CommitsOf(rows, a + b) == CommitsOf(rows, a) + CommitsOf(rows - Elems(a), b)
    decreases |a|
  {
    if a == [] {
      assert a + b == b && rows - Elems(a) == rows;
    } else {
      assert (a + b)[1..] == a[1..] + b;
      CommitsConcat(rows - {a[0]}, a[1..], b);
      assert rows - {a[0]} - Elems(a[1..]) == rows - Elems(a) by {
        assert a == [a[0]] + a[1..];
      }
    }
  }

  /** No folder the user still has lost its parent. */
  ghost predicate NoDeletedParent(before: Rows, after: Rows, user: Id)
  {
    forall x | x in after && after[x].userId == user && after[x].parentId.Some? && after[x].parentId.value in before ::
      after[x].parentId.value in after
  }

  lemma {:induction false} CommitAt(rows: Rows, ids: seq<Id>, k: nat)
    requires k < |ids|
    ensures |CommitsOf(rows, ids)| == |ids| && CommitsOf(rows, ids)[k] == rows - Elems(ids[..k + 1])
    decreases |ids|
  {
    var rest := rows - {ids[0]};
    if k == 0 {
      assert ids[..1] == [ids[0]];
      if |ids| > 1 {
        CommitAt(rest, ids[1..], 0);
      }
    } else {
      CommitAt(rest, ids[1..], k - 1);
      assert ids[..k + 1] == [ids[0]] + ids[1..][..k];
      assert rest - Elems(ids[1..][..k]) == rows - Elems(ids[..k + 1]);
    }
  }

  lemma ParentOutlivesChild(p: Parents, ids: seq<Id>, n: nat, x: Id, q: Id)
    requires ChildrenFirst(p, ids) && n <= |ids| && x in p && p[x] == Some(q) && x !in ids[..n]
    ensures q !in ids[..n]
  {
  }

  /** Deleting children first, no commit leaves a folder of the user without its parent. */
  lemma EveryCommitKeepsParents(rows: Rows, user: Id, ids: seq<Id>)
    requires ChildrenFirst(ParentsFor(rows, user), ids)
    ensures forall s | s in CommitsOf(rows, ids) :: NoDeletedParent(rows, s, user)
  {
    var p := ParentsFor(rows, user);
    forall s: Rows | s in CommitsOf(rows, ids) ensures NoDeletedParent(rows, s, user) {
      if ids != [] {
        CommitAt(rows, ids, 0);
        var k :| 0 <= k < |CommitsOf(rows, ids)| && CommitsOf(rows, ids)[k] == s;
        CommitAt(rows, ids, k);
        forall x | x in s && s[x].userId == user && s[x].parentId.Some? && s[x].parentId.value in rows
          ensures s[x].parentId.value in s
        {
          ParentOutlivesChild(p, ids, k + 1, x, s[x].parentId.value);
        }
      }
    }
  }

  // ------------------------------------------------------------- the table

  lemma RemovalOfParents(rows: Rows, user: Id, gone: set<Id>)
    ensures ParentsFor(rows - gone, user) == ParentsFor(rows, user) - gone
  {
  }

  /** A child has fewer folders below it than its parent. */
  lemma FewerBelow(p: Parents, folder: Id, c: Id)
    requires Acyclic(p) && folder in p && c in ChildrenIn(p, folder)
    ensures |Descendants(p, c)| < |Descendants(p, folder)|
  {
    ChildsSubtree(p, folder, c);
    SubsetSize(Descendants(p, c) + {c}, Descendants(p, folder));
  }

  lemma ChildsSubtree(p: Parents, folder: Id, c: Id)
    requires Acyclic(p) && folder in p && c in ChildrenIn(p, folder)
    ensures Descendants(p, c) + {c} <= Descendants(p, folder) && c !in Descendants(p, c)
  {
    SubtreeIsBelow(p, c);
    BelowIsChildrensSubtrees(p, folder);
    SmallerUnion(p, ChildrenIn(p, folder), c);
    SubtreeStep(p, c, c);
  }

  lemma SmallerUnion(p: Parents, cs: set<Id>, c: Id)
    requires c in cs
    ensures SubtreesOf(p, {c}) <= SubtreesOf(p, cs)
  {
  }

  /** One child's part of a listing that goes on in the rows left over. */
  lemma ChildOfRemainder(p: Parents, folder: Id, done: set<Id>, listed: seq<Id>, c: Id)
    requires Acyclic(p) && folder in p && done <= ChildrenIn(p, folder) && c in ChildrenIn(p, folder) && c !in done
    requires Elems(listed) == SubtreesOf(p, done)
    ensures var left := p - Elems(listed);
            Acyclic(left) && c in left && |Descendants(left, c)| < |Descendants(p, folder)|
  {
    BelowAfterRemoval(p, folder, done, c);
    FewerBelow(p, folder, c);
  }

  /** The listing of a child's part, made in the whole forest, extends the listing of its siblings'. */
  lemma ListingNext(p: Parents, folder: Id, done: set<Id>, listed: seq<Id>, c: Id, sub: seq<Id>)
    requires Acyclic(p) && folder in p && done <= ChildrenIn(p, folder) && c in ChildrenIn(p, folder) && c !in done
    requires ListsSubtrees(p, done, listed) && ListsBelow(p, c, sub)
    ensures ListsSubtrees(p, done + {c}, listed + sub + [c])
  {
    BelowAfterRemoval(p, folder, done, c);
    OneMoreSubtree(p, folder, done, listed, c, sub);
  }

  lemma ListingNextOf(p: Parents, folder: Id, todo: set<Id>, listed: seq<Id>, c: Id, sub: seq<Id>)
    requires Acyclic(p) && folder in p && c in todo && todo <= ChildrenIn(p, folder)
    requires ListsSubtrees(p, ChildrenIn(p, folder) - todo, listed) && ListsBelow(p, c, sub)
    ensures ListsSubtrees(p, ChildrenIn(p, folder) - (todo - {c}), listed + sub + [c])
  {
    ListingNext(p, folder, ChildrenIn(p, folder) - todo, listed, c, sub);
    assert ChildrenIn(p, folder) - (todo - {c}) == (ChildrenIn(p, folder) - todo) + {c};
  }

  lemma AllListed(p: Parents, folder: Id, listed: seq<Id>)
    requires Acyclic(p) && folder in p && ListsSubtrees(p, ChildrenIn(p, folder) - {}, listed)
    ensures ListsBelow(p, folder, listed)
  {
    BelowIsChildrensSubtrees(p, folder);
    assert ChildrenIn(p, folder) - {} == ChildrenIn(p, folder);
  }

  lemma NothingListed(p: Parents, children: set<Id>)
    ensures ListsSubtrees(p, children - children, [])
  {
  }

  /** The subtrees of cs are deleted, children first, and each deletion is committed. */
  ghost predicate Deleted(before: Rows, user: Id, cs: set<Id>, ids: seq<Id>, rows: Rows,
                          committed: seq<Rows>, commits: seq<Rows>)
  {
    && ListsSubtrees(ParentsFor(before, user), cs, ids)
    && rows == before - Elems(ids)
    && commits == committed + CommitsOf(before, ids)
  }

  lemma NothingDeleted(before: Rows, user: Id, children: set<Id>, committed: seq<Rows>)
    ensures Deleted(before, user, children - children, [], before, committed, committed)
  {
  }

  lemma DeletedNext(before: Rows, user: Id, folder: Id, done: set<Id>, ids: seq<Id>, rows: Rows,
                    committed: seq<Rows>, commits: seq<Rows>, c: Id, sub: seq<Id>, rows': Rows, commits': seq<Rows>)
    requires Deleted(before, user, done, ids, rows, committed, commits)
    requires var p := ParentsFor(before, user);
             Acyclic(p) && folder in p && done <= ChildrenIn(p, folder) && c in ChildrenIn(p, folder) && c !in done
    requires ListsBelow(ParentsFor(rows, user), c, sub)
    requires rows' == rows - Elems(sub) - {c} && commits' == commits + CommitsOf(rows, sub) + [rows']
    ensures Deleted(before, user, done + {c}, ids + sub + [c], rows', committed, commits')
  {
    RemovalOfParents(before, user, Elems(ids));
    OneMoreSubtree(ParentsFor(before, user), folder, done, ids, c, sub);
    CommitNext(before, ids, sub, c, committed);
  }

  lemma NextChild(before: Rows, user: Id, folder: Id, done: set<Id>, ids: seq<Id>, rows: Rows, c: Id)
    requires var p := ParentsFor(before, user);
             && Acyclic(p) && folder in p && done <= ChildrenIn(p, folder) && c in ChildrenIn(p, folder) && c !in done
             && Elems(ids) == SubtreesOf(p, done)
    requires rows == before - Elems(ids)
    ensures var p := ParentsFor(before, user);
            var left := ParentsFor(rows, user);
            Acyclic(left) && c in left && |Descendants(left, c)| < |Descendants(p, folder)|
  {
    RemovalOfParents(before, user, Elems(ids));
    ChildOfRemainder(ParentsFor(before, user), folder, done, ids, c);
  }

  lemma AllDeleted(before: Rows, user: Id, folder: Id, ids: seq<Id>)
    requires var p := ParentsFor(before, user);
             Acyclic(p) && folder in p && ListsSubtrees(p, ChildrenIn(p, folder), ids)
    ensures ListsBelow(ParentsFor(before, user), folder, ids)
  {
    BelowIsChildrensSubtrees(ParentsFor(before, user), folder);
  }

  lemma CommitNext(before: Rows, ids: seq<Id>, sub: seq<Id>, c: Id, committed: seq<Rows>)
    ensures var left := before - Elems(ids) - Elems(sub) - {c};
            && left == before - Elems(ids + sub + [c])
            && committed + CommitsOf(before, ids) + CommitsOf(before - Elems(ids), sub) + [left]
               == committed + CommitsOf(before, ids + sub + [c])
  {
    DeletedOneMore(before, ids, sub, c);
  }

  class FolderTable {
    var rows: Rows
    ghost var commits: seq<Rows>  // every state committed so far

    constructor (rows: Rows)
      ensures this.rows == rows && commits == []
    {
      this.rows := rows;
      commits := [];
    }

    /**
     The folders below one, each child's own before the child.  `depth` is the
     recursion left to the interpreter; running out of it fails the call.
     */
    method GetChildren(folder: Id, user: Id, depth: nat) returns (ok: bool, folders: seq<Id>)
      ensures var p := ParentsFor(rows, user);
              Acyclic(p) && folder in p && depth > |Descendants(p, folder)| ==> ok
      ensures var p := ParentsFor(rows, user);
              Acyclic(p) && folder in p && ok ==> ListsBelow(p, folder, folders)
      decreases depth
    {
      folders := [];
      if depth == 0 {
        return false, [];
      }
      ghost var p := ParentsFor(rows, user);
      ghost var sane := Acyclic(p) && folder in p;
      var children := ChildrenIn(ParentsFor(rows, user), folder);
      var todo := children;
      NothingListed(p, children);
      while todo != {}
        invariant todo <= children
        invariant sane ==> ListsSubtrees(p, children - todo, folders)
        decreases todo
      {
        var c :| c in todo;
        if sane {
          FewerBelow(p, folder, c);
        }
        var done, sub := GetChildren(c, user, depth - 1);
        if !done {
          return false, [];
        }
        if sane {
          ListingNextOf(p, folder, todo, folders, c, sub);
        }
        folders := folders + sub + [c];
        todo := todo - {c};
      }
      if sane {
        AllListed(p, folder, folders);
      }
      ok := true;
    }

    method GetChildrenFolders(id: Id, user: Id, depth: nat) returns (folders: Option<seq<Id>>)
      ensures !(id in rows && rows[id].userId == user) ==> folders.None?
      ensures var p := ParentsFor(rows, user);
              Acyclic(p) && id in p && depth > |Descendants(p, id)|
              ==> folders.Some? && ListsBelow(p, id, folders.value)
    {
      if !(id in rows && rows[id].userId == user) {
        return None;
      }
      var ok, list := GetChildren(id, user, depth);
      folders := if ok then Some(list) else None;
    }

    /** Delete everything below a folder, committing after each one. */
    method DeleteChildren(folder: Id, user: Id, depth: nat) returns (ok: bool, ids: seq<Id>)
      modifies this
      ensures var p := ParentsFor(old(rows), user);
              Acyclic(p) && folder in p && depth > |Descendants(p, folder)| ==> ok
      ensures var p := ParentsFor(old(rows), user);
              Acyclic(p) && folder in p && ok ==>
                && ListsBelow(p, folder, ids)
                && rows == old(rows) - Elems(ids)
                && commits == old(commits) + CommitsOf(old(rows), ids)
      decreases depth, 0
    {
      ids := [];
      if depth == 0 {
        return false, [];
      }
      ghost var before, committed := rows, commits;
      ghost var p := ParentsFor(rows, user);
      ghost var sane := Acyclic(p) && folder in p;
      var children := ChildrenIn(ParentsFor(rows, user), folder);
      var todo := children;
      NothingDeleted(before, user, children, committed);
      while todo != {}
        invariant todo <= children
        invariant sane ==> Deleted(before, user, children - todo, ids, rows, committed, commits)
        decreases todo
      {
        var c :| c in todo;
        if sane {
          NextChild(before, user, folder, children - todo, ids, rows, c);
        }
        ghost var rowsThen, commitsThen := rows, commits;
        var done, sub := DeleteChild(c, user, depth - 1);
        if !done {
          return false, [];
        }
        if sane {
          DeletedNext(before, user, folder, children - todo, ids, rowsThen, committed, commitsThen, c, sub, rows, commits);
          assert children - (todo - {c}) == (children - todo) + {c};
        }
        ids := ids + sub + [c];
        todo := todo - {c};
      }
      if sane {
        assert children - todo == children;
        AllDeleted(before, user, folder, ids);
      }
      ok := true;
    }

    /** Delete what lies below a child, then the child itself. */
    method DeleteChild(child: Id, user: Id, depth: nat) returns (ok: bool, sub: seq<Id>)
      modifies this
      ensures var p := ParentsFor(old(rows), user);
              Acyclic(p) && child in p && depth > |Descendants(p, child)| ==> ok
      ensures var p := ParentsFor(old(rows), user);
              Acyclic(p) && child in p && ok ==>
                && ListsBelow(p, child, sub)
                && rows == old(rows) - Elems(sub) - {child}
                && commits == old(commits) + CommitsOf(old(rows), sub) + [rows]
      decreases depth, 1
    {
      ok, sub := DeleteChildren(child, user, depth);
      if ok {
        rows := rows - {child};
        commits := commits + [rows];
      }
    }

    /**
     Delete a folder and all below it.  The result names the folder first, then
     what lay below it in the order of deletion.
     */
    method DeleteFolder(id: Id, user: Id, depth: nat) returns (ids: seq<Id>)
      modifies this
      ensures !(id in old(rows) && old(rows)[id].userId == user) ==> ids == [] && rows == old(rows) && commits == old(commits)
      ensures var p := ParentsFor(old(rows), user);
              Acyclic(p) && id in p && depth > |Descendants(p, id)| ==>
                && ids != [] && ids[0] == id && ListsBelow(p, id, ids[1..])
                && rows == old(rows) - (Descendants(p, id) + {id})
                && commits == old(commits) + CommitsOf(old(rows), ids[1..] + [id])
                && forall s | s in CommitsOf(old(rows), ids[1..] + [id]) :: NoDeletedParent(old(rows), s, user)
    {
      if !(id in rows && rows[id].userId == user) {
        return [];
      }
      ghost var before := rows;
      var ok, below := DeleteChild(id, user, depth);
      if !ok {
        return [];
      }
      if Acyclic(ParentsFor(before, user)) {
        RootDeleted(before, user, id, below);
      }
      ids := [id] + below;
      assert ids[1..] == below;
    }

    method UpdateParent(id: Id, user: Id, parentId: Option<Id>) returns (found: bool)
      modifies this
      ensures found == (id in old(rows) && old(rows)[id].userId == user)
      ensures rows == if found then old(rows)[id := old(rows)[id].(parentId := parentId)] else old(rows)
      ensures found ==> ParentsFor(rows, user) == ParentsFor(old(rows), user)[id := parentId]
    {
      found := id in rows && rows[id].userId == user;
      if found {
        rows := rows[id := rows[id].(parentId := parentId)];
        commits := commits + [rows];
      }
    }
  }

  lemma WithoutBoth(before: Rows, ids: seq<Id>, sub: seq<Id>, c: Id)
    ensures before - Elems(ids + sub) == before - Elems(ids) - Elems(sub)
    ensures before - Elems(ids + sub + [c]) == before - Elems(ids) - Elems(sub) - {c}
  {
  }

  lemma CommitOne(rows: Rows, c: Id)
    ensures CommitsOf(rows, [c]) == [rows - {c}]
  {
    assert [c][1..] == [];
  }

  lemma DeletedOneMore(before: Rows, ids: seq<Id>, sub: seq<Id>, c: Id)
    ensures before - Elems(ids) - Elems(sub) - {c} == before - Elems(ids + sub + [c])
    ensures CommitsOf(before, ids + sub + [c])
            == CommitsOf(before, ids) + CommitsOf(before - Elems(ids), sub) + [before - Elems(ids) - Elems(sub) - {c}]
  {
    WithoutBoth(before, ids, sub, c);
    CommitsConcat(before, ids, sub);
    CommitsConcat(before, ids + sub, [c]);
    CommitOne(before - Elems(ids + sub), c);
  }

  lemma RootDeleted(before: Rows, user: Id, id: Id, below: seq<Id>)
    requires var p := ParentsFor(before, user); Acyclic(p) && id in p && ListsBelow(p, id, below)
    ensures var p := ParentsFor(before, user);
            && before - Elems(below) - {id} == before - (Descendants(p, id) + {id})
            && CommitsOf(before, below + [id]) == CommitsOf(before, below) + [before - Elems(below) - {id}]
            && forall s | s in CommitsOf(before, below + [id]) :: NoDeletedParent(before, s, user)
  {
    CommitsConcat(before, below, [id]);
    assert CommitsOf(before - Elems(below), [id]) == [before - Elems(below) - {id}] by { assert [id][1..] == []; }
    RootLast(ParentsFor(before, user), id, below);
    EveryCommitKeepsParents(before, user, below + [id]);
  }

  lemma RootLast(p: Parents, id: Id, below: seq<Id>)
    requires Acyclic(p) && id in p && ListsBelow(p, id, below)
    ensures ChildrenFirst(p, below + [id])
  {
    assert p - Elems([]) == p;
    TailChildrenFirst(p, [], id, below);
    assert [] + below + [id] == below + [id];
  }

  /**
   Moving a folder under another keeps the user's forest acyclic exactly when the
   new parent does not lie at or below the folder; nothing in the move checks it.
   */
  lemma MoveKeepsForestIff(rows: Rows, user: Id, id: Id, to: Id)
    requires id in rows && rows[id].userId == user && Acyclic(ParentsFor(rows, user))
    ensures Acyclic(ParentsFor(rows[id := rows[id].(parentId := Some(to))], user))
            <==> !(to == id || (to in ParentsFor(rows, user) && Below(ParentsFor(rows, user), to, id)))
  {
    var p := ParentsFor(rows, user);
    MoveKeepsAcyclicIff(p, id, to);
    WalkUnfold(p, id);
    assert ParentsFor(rows[id := rows[id].(parentId := Some(to))], user) == p[id := Some(to)];
  }
}
