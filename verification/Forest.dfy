/**
 Parent maps: every node names at most one parent, which may or may not be a
 node itself.  Chats link messages this way and folders link folders.
 */
module Forest {
  import opened Prelude

  type Parents = map<Id, Option<Id>>

  /** A ranking in which every stored parent ranks below its child. */
  ghost predicate Ranks(p: Parents, rank: map<Id, nat>)
  {
    && rank.Keys == p.Keys
    && forall x | x in p && p[x].Some? && p[x].value in p :: rank[p[x].value] < rank[x]
  }

  ghost predicate Acyclic(p: Parents)
  {
    exists rank :: Ranks(p, rank)
  }

  /** The nodes met when climbing from x, x first, stopping at a node already visited. */
  function Walk(p: Parents, x: Id, visited: set<Id> := {}): (r: seq<Id>)
    decreases p.Keys - visited
  {
    if x !in p || x in visited then []
    else if p[x].None? then [x]
    else [x] + Walk(p, p[x].value, visited + {x})
  }

  /** s climbs from parent to parent. */
  ghost predicate Climbs(p: Parents, s: seq<Id>)
  {
    && (forall i | 0 <= i < |s| :: s[i] in p)
    && forall i | 0 <= i < |s| - 1 :: p[s[i]] == Some(s[i + 1])
  }

  /** Nothing above x is left to climb to. */
  predicate IsTop(p: Parents, x: Id)
    requires x in p
  {
    p[x].None? || p[x].value !in p
  }

  /** With a ranking, nodes ranked above x cannot stop a climb that starts at x. */
  lemma {:induction false} WalkIgnoresVisited(p: Parents, rank: map<Id, nat>, x: Id, visited: set<Id>)
    requires Ranks(p, rank)
    requires x in p ==> forall v | v in visited && v in p :: rank[x] < rank[v]
    ensures Walk(p, x, visited) == Walk(p, x)
    decreases if x in p then rank[x] else 0
  {
    if x in p && p[x].Some? && p[x].value in p {
      WalkIgnoresVisited(p, rank, p[x].value, visited + {x});
      WalkIgnoresVisited(p, rank, p[x].value, {} + {x});
    }
  }

  /** In an acyclic forest the climb unfolds one parent at a time. */
  lemma {:induction false} WalkUnfold(p: Parents, x: Id)
    requires Acyclic(p) && x in p
    ensures p[x].None? ==> Walk(p, x) == [x]
    ensures p[x].Some? ==> Walk(p, x) == [x] + Walk(p, p[x].value)
  {
    var rank :| Ranks(p, rank);
    if p[x].Some? {
      WalkIgnoresVisited(p, rank, p[x].value, {} + {x});
    }
  }

  /** Ranks never grow on the way up. */
  lemma {:induction false} WalkRanks(p: Parents, rank: map<Id, nat>, x: Id, visited: set<Id>)
    requires Ranks(p, rank)
    ensures forall y | y in Walk(p, x, visited) :: x in p && y in p && rank[y] <= rank[x]
    decreases p.Keys - visited
  {
    if x in p && x !in visited && p[x].Some? {
      WalkRanks(p, rank, p[x].value, visited + {x});
    }
  }

  /**
   The guard against cycles never fires in an acyclic forest: the climb follows
   every parent link, repeats nothing, and ends where no stored parent is left.
   */
  lemma {:induction false} AcyclicWalkIsComplete(p: Parents, rank: map<Id, nat>, x: Id)
    requires Ranks(p, rank) && x in p
    ensures var w := Walk(p, x);
            w != [] && w[0] == x && Climbs(p, w) && NoDup(w) && IsTop(p, w[|w| - 1])
    decreases rank[x]
  {
    WalkUnfold(p, x);
    if !IsTop(p, x) {
      var q := p[x].value;
      AcyclicWalkIsComplete(p, rank, q);
      WalkRanks(p, rank, q, {});
      NoDupConcat([x], Walk(p, q));
    }
  }

  /** y lies strictly below root. */
  ghost predicate Below(p: Parents, y: Id, root: Id)
  {
    y != root && root in Walk(p, y)
  }

  ghost function Descendants(p: Parents, root: Id): (r: set<Id>)
    ensures forall y :: y in r <==> y in p && Below(p, y, root)
  {
    set y | y in p && Below(p, y, root)
  }

  lemma BelowUnfold(p: Parents, y: Id, root: Id)
    requires Acyclic(p) && y in p && root in p
    ensures Below(p, y, root) <==> p[y] == Some(root) || (p[y].Some? && p[y].value in p && Below(p, p[y].value, root))
  {
    var rank :| Ranks(p, rank);
    WalkUnfold(p, y);
    WalkUnfold(p, root);
    if p[y].Some? {
      WalkRanks(p, rank, p[y].value, {});
    }
  }

  /** A climb that reaches `at` survives a change of `at`'s own parent. */
  lemma {:induction false} RankAlongWalk(p: Parents, q: Parents, rank: map<Id, nat>, x: Id, at: Id, visited: set<Id>)
    requires q.Keys == p.Keys && forall y | y in p && y != at :: q[y] == p[y]
    requires Ranks(q, rank)
    requires at in Walk(p, x, visited)
    ensures x in p && at in p && rank[at] <= rank[x]
    decreases p.Keys - visited
  {
    if x != at {
      RankAlongWalk(p, q, rank, p[x].value, at, visited + {x});
    }
  }

  /** Nodes whose climb passes through x. */
  ghost predicate InSubtree(p: Parents, y: Id, x: Id)
  {
    x in Walk(p, y)
  }

  lemma SubtreeStep(p: Parents, y: Id, x: Id)
    requires Acyclic(p) && y in p && x in p
    ensures InSubtree(p, x, x)
    ensures y != x ==> (InSubtree(p, y, x) <==> p[y].Some? && InSubtree(p, p[y].value, x))
  {
    WalkUnfold(p, y);
    WalkUnfold(p, x);
  }

  lemma LiftRanks(p: Parents, rank: map<Id, nat>, x: Id, to: Id) returns (lifted: map<Id, nat>)
    requires Ranks(p, rank) && x in p && !InSubtree(p, to, x)
    ensures Ranks(p[x := Some(to)], lifted)
  {
    var m := if to in p then rank[to] + 1 else 0;
    lifted := map y | y in p :: if InSubtree(p, y, x) then rank[y] + m else rank[y];
    var q := p[x := Some(to)];
    forall y | y in q && q[y].Some? && q[y].value in q
      ensures lifted[q[y].value] < lifted[y]
    {
      SubtreeStep(p, y, x);
    }
  }

  /**
   Re-parenting x under `to` keeps the forest acyclic exactly when x does not lie
   on the climb from `to`.
   */
  lemma {:induction false} MoveKeepsAcyclicIff(p: Parents, x: Id, to: Id)
    requires Acyclic(p) && x in p
    ensures Acyclic(p[x := Some(to)]) <==> x !in Walk(p, to)
  {
    var rank :| Ranks(p, rank);
    if x !in Walk(p, to) {
      var lifted := LiftRanks(p, rank, x, to);
    } else if Acyclic(p[x := Some(to)]) {
      var q := p[x := Some(to)];
      var r :| Ranks(q, r);
      RankAlongWalk(p, q, r, to, x, {});
      assert false;
    }
  }

  /** A part of an acyclic forest is acyclic. */
  lemma SubforestAcyclic(p: Parents, q: Parents)
    requires Acyclic(p) && q.Keys <= p.Keys && forall x | x in q :: q[x] == p[x]
    ensures Acyclic(q)
  {
    var rank :| Ranks(p, rank);
    assert Ranks(q, map x | x in q :: rank[x]);
  }

  /** New nodes whose parents, if stored, are old keep the forest acyclic. */
  lemma AttachKeepsAcyclic(p: Parents, q: Parents)
    requires Acyclic(p) && p.Keys <= q.Keys && forall x | x in p :: q[x] == p[x]
    requires forall x | x in p && p[x].Some? && p[x].value in q :: p[x].value in p
    requires forall x | x in q && x !in p && q[x].Some? && q[x].value in q :: q[x].value in p
    ensures Acyclic(q)
  {
    var rank :| Ranks(p, rank);
    var rank' := map x | x in q ::
      if x in p then rank[x] else if q[x].Some? && q[x].value in p then rank[q[x].value] + 1 else 0;
    assert Ranks(q, rank');
  }

  /** In an acyclic forest no parent link leads back to where it starts, directly or in two steps. */
  lemma NoShortCycle(p: Parents, x: Id, y: Id)
    requires Acyclic(p) && x in p && y in p && p[x] == Some(y)
    ensures x != y && p[y] != Some(x)
  {
  }
}
