/**
 The automation scheduler: workers claim due automations, moving each to its next
 occurrence.  A claim is two steps, a locked selection and a commit.
 */
module Automations {
  import opened Prelude

  /** `next` and `last` are times in nanoseconds. */
  datatype Automation = Automation(active: bool, next: Option<int>, last: Option<int>)

  type Table = map<Id, Automation>

  predicate Due(a: Automation, now: int)
  {
    a.active && a.next.Some? && a.next.value <= now
  }

  function DueSet(t: Table, now: int): set<Id>
  {
    set id | id in t && Due(t[id], now)
  }

  /** Rows the selection may take: due and not locked by another worker. */
  function Available(t: Table, locked: set<Id>, now: int): set<Id>
  {
    DueSet(t, now) - locked
  }

  ghost predicate SortedByNext(t: Table, ids: seq<Id>)
  {
    && (forall i | 0 <= i < |ids| :: ids[i] in t && t[ids[i]].next.Some?)
    && forall i, j | 0 <= i < j < |ids| :: t[ids[i]].next.value <= t[ids[j]].next.value
  }

  /** The `limit` earliest available rows, in order; ties are broken either way. */
  ghost predicate IsSelection(t: Table, locked: set<Id>, now: int, limit: nat, chosen: seq<Id>)
  {
    var available := Available(t, locked, now);
    && NoDup(chosen) && Elems(chosen) <= available
    && SortedByNext(t, chosen)
    && |chosen| == (if |available| < limit then |available| else limit)
    && forall x, y | x in chosen && y in available && y !in chosen :: t[x].next.value <= t[y].next.value
  }

  /** A row after it is claimed. */
  function Claimed(a: Automation, now: int, next: Option<int>): Automation
  {
    a.(last := Some(now), next := next)
  }

  function ClaimAll(t: Table, chosen: set<Id>, now: int, nexts: Id -> Option<int>): Table
  {
    map id | id in t :: if id in chosen then Claimed(t[id], now, nexts(id)) else t[id]
  }

  /** The next occurrence lies after the time of the claim, or there is none. */
  ghost predicate Later(nexts: Id -> Option<int>, now: int)
  {
    forall id :: nexts(id).Some? ==> nexts(id).value > now
  }

  class AutomationTable {
    var rows: Table

    constructor (rows: Table)
      ensures this.rows == rows
    {
      this.rows := rows;
    }

    /** The update loop of a claim, over the rows its query returned. */
    method ClaimDue(now: int, selected: seq<Id>, nexts: Id -> Option<int>)
      requires forall id | id in selected :: id in rows
      modifies this
      ensures rows == ClaimAll(old(rows), Elems(selected), now, nexts)
    {
      ghost var before := rows;
      var i := 0;
      while i < |selected|
        invariant 0 <= i <= |selected|
        invariant rows.Keys == before.Keys
        invariant forall id | id in rows ::
                    (id in selected[..i] ==> rows[id] == Claimed(before[id], now, nexts(id)))
                    && (id !in selected[..i] ==> rows[id] == before[id])
      {
        var id := selected[i];
        var row := rows[id];
        row := row.(last := Some(now));
        row := row.(next := nexts(id));
        rows := rows[id := row];
        assert selected[..i + 1] == selected[..i] + [id];
        i := i + 1;
      }
      assert selected[..i] == selected;
    }
  }

  // ---------------------------------------------------- selections exist

  lemma EarliestExists(t: Table, s: set<Id>) returns (first: Id)
    requires s != {} && forall x | x in s :: x in t && t[x].next.Some?
    ensures first in s && forall x | x in s :: t[first].next.value <= t[x].next.value
  {
    var x :| x in s;
    if s == {x} {
      first := x;
    } else {
      var rest := EarliestExists(t, s - {x});
      first := if t[x].next.value <= t[rest].next.value then x else rest;
    }
  }

  lemma {:induction false} SelectFrom(t: Table, s: set<Id>, n: nat) returns (chosen: seq<Id>)
    requires n <= |s| && forall x | x in s :: x in t && t[x].next.Some?
    ensures NoDup(chosen) && Elems(chosen) <= s && SortedByNext(t, chosen) && |chosen| == n
    ensures forall x, y | x in chosen && y in s && y !in chosen :: t[x].next.value <= t[y].next.value
    decreases n
  {
    if n == 0 {
      chosen := [];
    } else {
      var first := EarliestExists(t, s);
      var rest := SelectFrom(t, s - {first}, n - 1);
      chosen := [first] + rest;
      forall x | x in rest ensures x in Elems(rest) {
      }
      NoDupConcat([first], rest);
    }
  }

  /** The query always has an answer. */
  lemma SelectionExists(t: Table, locked: set<Id>, now: int, limit: nat) returns (chosen: seq<Id>)
    ensures IsSelection(t, locked, now, limit, chosen)
  {
    var available := Available(t, locked, now);
    chosen := SelectFrom(t, available, if |available| < limit then |available| else limit);
  }

  // ------------------------------------------------------------ draining

  /** Claims at a fixed time, one after another, each uncontended. */
  datatype Claim = Claim(chosen: seq<Id>, nexts: Id -> Option<int>)

  ghost predicate IsDrain(t: Table, now: int, limit: nat, claims: seq<Claim>)
    decreases |claims|
  {
    claims != [] ==>
      && IsSelection(t, {}, now, limit, claims[0].chosen)
      && Later(claims[0].nexts, now)
      && IsDrain(ClaimAll(t, Elems(claims[0].chosen), now, claims[0].nexts), now, limit, claims[1..])
  }

  function Taken(claims: seq<Claim>): seq<Id>
  {
    if claims == [] then [] else claims[0].chosen + Taken(claims[1..])
  }

  function AfterClaims(t: Table, now: int, claims: seq<Claim>): Table
    decreases |claims|
  {
    if claims == [] then t
    else AfterClaims(ClaimAll(t, Elems(claims[0].chosen), now, claims[0].nexts), now, claims[1..])
  }

  /** One claim takes its rows out of the due set and leaves the other due rows as they are. */
  lemma ClaimEmptiesSelection(t: Table, now: int, limit: nat, c: Claim)
    requires IsSelection(t, {}, now, limit, c.chosen) && Later(c.nexts, now)
    ensures var t' := ClaimAll(t, Elems(c.chosen), now, c.nexts);
            && DueSet(t', now) == DueSet(t, now) - Elems(c.chosen)
            && |DueSet(t', now)| == |DueSet(t, now)| - |c.chosen|
            && forall id | id in DueSet(t', now) :: t'[id] == t[id]
  {
    var t' := ClaimAll(t, Elems(c.chosen), now, c.nexts);
    assert DueSet(t', now) == DueSet(t, now) - Elems(c.chosen);
    NoDupSize(c.chosen);
    assert Elems(c.chosen) <= DueSet(t, now);
  }

  /** `taken` lists some of the rows due in t, each once and earliest first. */
  ghost predicate TakenInOrder(t: Table, due: set<Id>, taken: seq<Id>)
  {
    NoDup(taken) && SortedByNext(t, taken) && Elems(taken) <= due
  }

  /** Rows taken now, then rows taken from what is left, all of them in order. */
  lemma ConcatInOrder(t: Table, t': Table, due: set<Id>, left: set<Id>, a: seq<Id>, b: seq<Id>)
    requires TakenInOrder(t, due, a) && TakenInOrder(t', left, b)
    requires left == due - Elems(a)
    requires forall x | x in left :: x in t && x in t' && t'[x] == t[x]
    requires forall x, y | x in a && y in left :: y in t && t[y].next.Some? && t[x].next.value <= t[y].next.value
    ensures TakenInOrder(t, due, a + b)
    ensures Elems(a + b) == Elems(a) + Elems(b)
  {
  }

  lemma OneMoreClaim(t: Table, now: int, limit: nat, c: Claim, rest: seq<Id>)
    requires IsSelection(t, {}, now, limit, c.chosen) && Later(c.nexts, now)
    requires var t' := ClaimAll(t, Elems(c.chosen), now, c.nexts); TakenInOrder(t', DueSet(t', now), rest)
    ensures TakenInOrder(t, DueSet(t, now), c.chosen + rest)
    ensures Elems(c.chosen + rest) == Elems(c.chosen) + Elems(rest)
  {
    var t' := ClaimAll(t, Elems(c.chosen), now, c.nexts);
    ClaimEmptiesSelection(t, now, limit, c);
    ConcatInOrder(t, t', DueSet(t, now), DueSet(t', now), c.chosen, rest);
  }

  /**
   Repeated claims take each due row at most once, earliest first across all of
   them, and what they have not taken is what is still due.
   */
  lemma {:induction false} DrainTakesInOrder(t: Table, now: int, limit: nat, claims: seq<Claim>)
    requires IsDrain(t, now, limit, claims)
    ensures TakenInOrder(t, DueSet(t, now), Taken(claims))
    ensures DueSet(AfterClaims(t, now, claims), now) == DueSet(t, now) - Elems(Taken(claims))
    decreases |claims|
  {
    if claims != [] {
      var c := claims[0];
      var t' := ClaimAll(t, Elems(c.chosen), now, c.nexts);
      var rest := Taken(claims[1..]);
      DrainTakesInOrder(t', now, limit, claims[1..]);
      OneMoreClaim(t, now, limit, c, rest);
      ClaimEmptiesSelection(t, now, limit, c);
    }
  }

  lemma ClaimTakesUpToLimit(t: Table, now: int, limit: nat, c: Claim)
    requires IsSelection(t, {}, now, limit, c.chosen) && Later(c.nexts, now)
    ensures var left := |DueSet(ClaimAll(t, Elems(c.chosen), now, c.nexts), now)|;
            left == 0 || left == |DueSet(t, now)| - limit
  {
    ClaimEmptiesSelection(t, now, limit, c);
    assert Available(t, {}, now) == DueSet(t, now);
  }

  lemma OneLessRound(rounds: nat, limit: nat, due: nat, left: nat)
    requires rounds > 0 && rounds * limit >= due && (left == 0 || left == due - limit)
    ensures (rounds - 1) * limit >= left
  {
  }

  /** Enough claims leave nothing due: every claim takes `limit` rows or all there are. */
  lemma {:induction false} DrainEmpties(t: Table, now: int, limit: nat, claims: seq<Claim>)
    requires IsDrain(t, now, limit, claims)
    requires |claims| * limit >= |DueSet(t, now)|
    ensures DueSet(AfterClaims(t, now, claims), now) == {}
    decreases |claims|
  {
    if claims != [] {
      var c := claims[0];
      var t' := ClaimAll(t, Elems(c.chosen), now, c.nexts);
      ClaimTakesUpToLimit(t, now, limit, c);
      OneLessRound(|claims|, limit, |DueSet(t, now)|, |DueSet(t', now)|);
      DrainEmpties(t', now, limit, claims[1..]);
    }
  }

  // -------------------------------------------------- several workers

  type Worker = nat

  /** The rows a worker read, with the occurrence it saw due on each. */
  datatype Selection = Selection(chosen: seq<Id>, now: int, due: seq<(Id, int)>)

  /** `held` are selections not yet committed; `log` lists each claimed occurrence. */
  datatype Scheduler = Scheduler(rows: Table, clock: int, held: map<Worker, Selection>, log: seq<(Id, int)>)

  datatype Step =
    | Tick(to: int)
    | Select(w: Worker, now: int, limit: nat, chosen: seq<Id>)
    | Commit(w: Worker, nexts: Id -> Option<int>)
    | Rollback(w: Worker)
    | Edit(id: Id, row: Automation)
    | Delete(id: Id)

  function Locked(s: Scheduler): set<Id>
  {
    set w, id | w in s.held && id in s.held[w].chosen :: id
  }

  function Occurrences(t: Table, chosen: seq<Id>): seq<(Id, int)>
  {
    if chosen == [] then []
    else (if chosen[0] in t && t[chosen[0]].next.Some? then [(chosen[0], t[chosen[0]].next.value)] else [])
         + Occurrences(t, chosen[1..])
  }

  /** An active row whose next run has not been claimed, nor any later one of its row. */
  ghost predicate IsFresh(log: seq<(Id, int)>, id: Id, row: Automation)
  {
    row.active && row.next.Some? ==> forall e | e in log && e.0 == id :: e.1 < row.next.value
  }

  /** Each next run stored by a commit lies after the occurrence that is claimed. */
  ghost predicate AfterClaimed(due: seq<(Id, int)>, nexts: Id -> Option<int>)
  {
    forall e | e in due && nexts(e.0).Some? :: e.1 < nexts(e.0).value
  }

  /**
   Whether a step can be taken.  With `locking` a selection skips locked rows and no one else edits them;
   when other workers take rows meanwhile it may return fewer than the earliest due ones.  A commit or an
   edit may come long after its next runs were computed.
   */
  ghost predicate Enabled(s: Scheduler, step: Step, locking: bool)
  {
    match step
    case Tick(to) => s.clock <= to
    case Select(w, now, limit, chosen) =>
      && w !in s.held && now <= s.clock && NoDup(chosen) && |chosen| <= limit
      && Elems(chosen) <= Available(s.rows, if locking then Locked(s) else {}, now)
    case Commit(w, nexts) => w in s.held && AfterClaimed(s.held[w].due, nexts)
    case Rollback(w) => w in s.held
    case Edit(id, row) => (locking ==> id !in Locked(s)) && IsFresh(s.log, id, row)
    case Delete(id) => locking ==> id !in Locked(s)
  }

  /** A selection is the query's own answer: the earliest due rows, as many as the limit allows. */
  ghost predicate Earliest(s: Scheduler, step: Step, locking: bool)
  {
    step.Select? ==> IsSelection(s.rows, if locking then Locked(s) else {}, step.now, step.limit, step.chosen)
  }

  ghost predicate SelectsEarliest(s: Scheduler, steps: seq<Step>, locking: bool)
    decreases |steps|
  {
    steps != [] ==> Earliest(s, steps[0], locking) && SelectsEarliest(Take(s, steps[0]), steps[1..], locking)
  }

  function Take(s: Scheduler, step: Step): Scheduler
  {
    match step
    case Tick(to) => s.(clock := to)
    case Select(w, now, _, chosen) => s.(held := s.held[w := Selection(chosen, now, Occurrences(s.rows, chosen))])
    case Commit(w, nexts) =>
      if w !in s.held then s
      else s.(rows := ClaimAll(s.rows, Elems(s.held[w].chosen), s.held[w].now, nexts),
              held := s.held - {w},
              log := s.log + s.held[w].due)
    case Rollback(w) => s.(held := s.held - {w})
    case Edit(id, row) => s.(rows := s.rows[id := row])
    case Delete(id) => s.(rows := s.rows - {id})
  }

  ghost predicate IsRun(s: Scheduler, steps: seq<Step>, locking: bool)
    decreases |steps|
  {
    steps != [] ==> Enabled(s, steps[0], locking) && IsRun(Take(s, steps[0]), steps[1..], locking)
  }

  function After(s: Scheduler, steps: seq<Step>): Scheduler
    decreases |steps|
  {
    if steps == [] then s else After(Take(s, steps[0]), steps[1..])
  }

  /** A held row is still as it was when it was selected. */
  ghost predicate HeldUnchanged(s: Scheduler, sel: Selection)
  {
    && NoDup(sel.due) && sel.now <= s.clock
    && (forall id | id in sel.chosen ::
          id in s.rows && Due(s.rows[id], sel.now) && (id, s.rows[id].next.value) in sel.due)
    && forall e | e in sel.due :: e.0 in sel.chosen && s.rows[e.0].next == Some(e.1)
  }

  ghost predicate HeldAreDue(s: Scheduler)
  {
    && (forall w | w in s.held :: HeldUnchanged(s, s.held[w]))
    && forall w, w', id | w in s.held && w' in s.held && w != w' && id in s.held[w].chosen :: id !in s.held[w'].chosen
  }

  /** Every logged occurrence is past and is logged once. */
  ghost predicate LogIsPast(s: Scheduler)
  {
    NoDup(s.log) && forall e | e in s.log :: e.1 <= s.clock
  }

  ghost predicate NextsAreFresh(s: Scheduler)
  {
    forall id | id in s.rows :: IsFresh(s.log, id, s.rows[id])
  }

  ghost predicate LoggedOnce(s: Scheduler)
  {
    LogIsPast(s) && NextsAreFresh(s)
  }

  lemma {:induction false} OccurrencesSpec(t: Table, chosen: seq<Id>)
    requires NoDup(chosen)
    ensures NoDup(Occurrences(t, chosen))
    ensures forall e :: e in Occurrences(t, chosen)
                        <==> e.0 in chosen && e.0 in t && t[e.0].next == Some(e.1)
    decreases |chosen|
  {
    if chosen != [] {
      assert chosen == [chosen[0]] + chosen[1..] && chosen[0] !in chosen[1..] && NoDup(chosen[1..]);
      OccurrencesSpec(t, chosen[1..]);
    }
  }

  lemma CommitLogsPast(s: Scheduler, w: Worker, nexts: Id -> Option<int>)
    requires HeldAreDue(s) && LoggedOnce(s) && w in s.held
    ensures LogIsPast(Take(s, Commit(w, nexts)))
  {
    var sel := s.held[w];
    assert HeldUnchanged(s, sel);
    forall e | e in sel.due ensures e !in s.log && e.1 <= s.clock {
      assert IsFresh(s.log, e.0, s.rows[e.0]);
    }
    NoDupConcat(s.log, sel.due);
  }

  /** A commit leaves every next run fresh exactly when those it stores lie after what it claims. */
  lemma CommitIsFreshIff(s: Scheduler, w: Worker, nexts: Id -> Option<int>)
    requires HeldAreDue(s) && LoggedOnce(s) && w in s.held
    ensures NextsAreFresh(Take(s, Commit(w, nexts))) <==> AfterClaimed(s.held[w].due, nexts)
  {
    var sel, s' := s.held[w], Take(s, Commit(w, nexts));
    assert HeldUnchanged(s, sel);
    if AfterClaimed(sel.due, nexts) {
      forall id | id in s'.rows ensures IsFresh(s'.log, id, s'.rows[id]) {
        assert IsFresh(s.log, id, s.rows[id]);
      }
    }
    if NextsAreFresh(s') {
      forall e | e in sel.due && nexts(e.0).Some? ensures e.1 < nexts(e.0).value {
        assert e in s'.log && IsFresh(s'.log, e.0, s'.rows[e.0]);
      }
    }
  }

  lemma SelectKeepsHeldDue(s: Scheduler, w: Worker, now: int, limit: nat, chosen: seq<Id>)
    requires HeldAreDue(s) && Enabled(s, Select(w, now, limit, chosen), true)
    ensures HeldAreDue(Take(s, Select(w, now, limit, chosen)))
  {
    var s' := Take(s, Select(w, now, limit, chosen));
    forall id | id in chosen ensures id in DueSet(s.rows, now) && id !in Locked(s) {
      assert id in Elems(chosen);
    }
    OccurrencesSpec(s.rows, chosen);
    assert HeldUnchanged(s', s'.held[w]);
    forall w' | w' in s'.held ensures HeldUnchanged(s', s'.held[w']) {
      assert w' != w ==> HeldUnchanged(s, s.held[w']);
    }
  }

  lemma CommitKeepsHeldDue(s: Scheduler, w: Worker, nexts: Id -> Option<int>)
    requires HeldAreDue(s) && w in s.held
    ensures HeldAreDue(Take(s, Commit(w, nexts)))
  {
    var s' := Take(s, Commit(w, nexts));
    forall w' | w' in s'.held ensures HeldUnchanged(s', s'.held[w']) {
      assert HeldUnchanged(s, s.held[w']);
      forall id | id in s.held[w'].chosen ensures s'.rows[id] == s.rows[id] {
      }
    }
  }

  lemma EditKeepsHeldDue(s: Scheduler, id: Id, row: Automation)
    requires HeldAreDue(s) && id !in Locked(s)
    ensures HeldAreDue(Take(s, Edit(id, row)))
  {
    var s' := Take(s, Edit(id, row));
    forall w | w in s'.held ensures HeldUnchanged(s', s'.held[w]) {
      assert HeldUnchanged(s, s.held[w]);
      assert id !in s.held[w].chosen;
    }
  }

  lemma DeleteKeepsHeldDue(s: Scheduler, id: Id)
    requires HeldAreDue(s) && Enabled(s, Delete(id), true)
    ensures HeldAreDue(Take(s, Delete(id)))
  {
    var s' := Take(s, Delete(id));
    forall w | w in s'.held ensures HeldUnchanged(s', s'.held[w]) {
      assert HeldUnchanged(s, s.held[w]);
      assert id !in s.held[w].chosen;
    }
  }

  lemma StepKeepsHeldDue(s: Scheduler, step: Step)
    requires HeldAreDue(s) && Enabled(s, step, true)
    ensures HeldAreDue(Take(s, step))
  {
    match step
    case Tick(to) =>
      forall w | w in s.held ensures HeldUnchanged(Take(s, step), s.held[w]) {
        assert HeldUnchanged(s, s.held[w]);
      }
    case Select(w, now, limit, chosen) => SelectKeepsHeldDue(s, w, now, limit, chosen);
    case Commit(w, nexts) => CommitKeepsHeldDue(s, w, nexts);
    case Rollback(w) =>
      forall w' | w' in s.held && w' != w ensures HeldUnchanged(Take(s, step), s.held[w']) {
        assert HeldUnchanged(s, s.held[w']);
      }
    case Edit(id, row) => EditKeepsHeldDue(s, id, row);
    case Delete(id) => DeleteKeepsHeldDue(s, id);
  }

  lemma StepLogsOnce(s: Scheduler, step: Step)
    requires HeldAreDue(s) && LoggedOnce(s) && Enabled(s, step, true)
    ensures LoggedOnce(Take(s, step))
  {
    match step
    case Commit(w, nexts) =>
      CommitLogsPast(s, w, nexts);
      CommitIsFreshIff(s, w, nexts);
    case _ =>
      var s' := Take(s, step);
      forall id | id in s'.rows ensures IsFresh(s'.log, id, s'.rows[id]) {
        assert id in s.rows ==> IsFresh(s.log, id, s.rows[id]);
      }
  }

  /** With row locks, in every run of any number of workers, slow commits included, no occurrence is claimed twice. */
  lemma {:induction false} NoOccurrenceIsClaimedTwice(s: Scheduler, steps: seq<Step>)
    requires HeldAreDue(s) && LoggedOnce(s) && IsRun(s, steps, true)
    ensures NoDup(After(s, steps).log)
    decreases |steps|
  {
    if steps != [] {
      StepKeepsHeldDue(s, steps[0]);
      StepLogsOnce(s, steps[0]);
      NoOccurrenceIsClaimedTwice(Take(s, steps[0]), steps[1..]);
    }
  }

  // -------------------------------------------------------- the last run of a row

  /** The time of the last claim committed in the run that took the row, and the next run it stored. */
  function LastClaim(s: Scheduler, steps: seq<Step>, id: Id, before: (Option<int>, Option<int>)): (Option<int>, Option<int>)
    decreases |steps|
  {
    if steps == [] then before
    else
      var step := steps[0];
      var claims := step.Commit? && step.w in s.held && id in s.held[step.w].chosen;
      LastClaim(Take(s, step), steps[1..], id, if claims then (Some(s.held[step.w].now), step.nexts(id)) else before)
  }

  /** Over every run, a row that is not edited or deleted has the last and next run that the last claim of it stored. */
  lemma {:induction false} RowIsAsLastClaimed(s: Scheduler, steps: seq<Step>, id: Id)
    requires id in s.rows && forall step | step in steps :: !((step.Edit? || step.Delete?) && step.id == id)
    ensures id in After(s, steps).rows && After(s, steps).rows[id].active == s.rows[id].active
    ensures var row := After(s, steps).rows[id];
            (row.last, row.next) == LastClaim(s, steps, id, (s.rows[id].last, s.rows[id].next))
    decreases |steps|
  {
    if steps != [] {
      assert steps[0] in steps;
      RowIsAsLastClaimed(Take(s, steps[0]), steps[1..], id);
    }
  }

  function LastTick(clock: int, steps: seq<Step>): int
    decreases |steps|
  {
    if steps == [] then clock else LastTick(if steps[0].Tick? then steps[0].to else clock, steps[1..])
  }

  /** Whether the worker selected, and neither committed nor rolled back since. */
  predicate Selecting(before: bool, steps: seq<Step>, w: Worker)
    decreases |steps|
  {
    if steps == [] then before
    else if steps[0].Select? && steps[0].w == w then Selecting(true, steps[1..], w)
    else if (steps[0].Commit? || steps[0].Rollback?) && steps[0].w == w then Selecting(false, steps[1..], w)
    else Selecting(before, steps[1..], w)
  }

  /** Whether the row was stored, and not deleted since. */
  predicate Stored(before: bool, steps: seq<Step>, id: Id)
    decreases |steps|
  {
    if steps == [] then before
    else if steps[0].Edit? && steps[0].id == id then Stored(true, steps[1..], id)
    else if steps[0].Delete? && steps[0].id == id then Stored(false, steps[1..], id)
    else Stored(before, steps[1..], id)
  }

  /** The steps of a run tell its clock, which workers hold a selection, and which rows there are. */
  lemma {:induction false} StepsTell(s: Scheduler, steps: seq<Step>, w: Worker, id: Id)
    ensures var s' := After(s, steps);
            && s'.clock == LastTick(s.clock, steps)
            && (w in s'.held <==> Selecting(w in s.held, steps, w))
            && (id in s'.rows <==> Stored(id in s.rows, steps, id))
    decreases |steps|
  {
    if steps != [] {
      StepsTell(Take(s, steps[0]), steps[1..], w, id);
    }
  }

  // -------------------------------------- exactly when nothing is claimed twice

  /** No run from here claims an occurrence twice, nor one that was claimed before. */
  ghost predicate NothingTwiceFrom(s: Scheduler)
  {
    forall steps | IsRun(s, steps, true) :: NoDup(After(s, steps).log)
  }

  lemma RunCons(s: Scheduler, step: Step, rest: seq<Step>, locking: bool)
    ensures IsRun(s, [step] + rest, locking) <==> Enabled(s, step, locking) && IsRun(Take(s, step), rest, locking)
    ensures SelectsEarliest(s, [step] + rest, locking) <==> Earliest(s, step, locking) && SelectsEarliest(Take(s, step), rest, locking)
    ensures After(s, [step] + rest) == After(Take(s, step), rest)
  {
  }

  lemma {:induction false} RunConcat(s: Scheduler, a: seq<Step>, b: seq<Step>, locking: bool)
    requires IsRun(s, a, locking) && IsRun(After(s, a), b, locking)
    requires SelectsEarliest(s, a, locking) && SelectsEarliest(After(s, a), b, locking)
    ensures IsRun(s, a + b, locking) && SelectsEarliest(s, a + b, locking)
    ensures After(s, a + b) == After(After(s, a), b)
    decreases |a|
  {
    if a == [] {
      assert a + b == b;
    } else {
      RunConcat(Take(s, a[0]), a[1..], b, locking);
      assert (a + b)[1..] == a[1..] + b;
    }
  }

  lemma {:induction false} FreshWorker(taken: set<Worker>) returns (w: Worker)
    ensures forall v | v in taken :: v < w
    decreases taken
  {
    w := 0;
    if taken != {} {
      var v :| v in taken;
      var rest := FreshWorker(taken - {v});
      w := if rest <= v then v + 1 else rest;
      forall u | u in taken ensures u < w {
        assert u == v || u in taken - {v};
      }
    }
  }

  /** A new worker may select everything due. */
  lemma SelectAll(s: Scheduler, id: Id, now: int) returns (select: Step)
    requires now <= s.clock && id in Available(s.rows, Locked(s), now)
    ensures select.Select? && select.now == now && id in select.chosen
    ensures Enabled(s, select, true) && Earliest(s, select, true)
    ensures forall e :: e in Occurrences(s.rows, select.chosen)
                        <==> e.0 in select.chosen && e.0 in s.rows && s.rows[e.0].next == Some(e.1)
  {
    var available := Available(s.rows, Locked(s), now);
    var w := FreshWorker(s.held.Keys);
    var chosen := SelectionExists(s.rows, Locked(s), now, |available|);
    NoDupSize(chosen);
    SubsetSize(Elems(chosen), available);
    assert id in Elems(chosen);
    OccurrencesSpec(s.rows, chosen);
    select := Select(w, now, |available|, chosen);
  }

  lemma CommitAfterSelect(s: Scheduler, select: Step, nexts: Id -> Option<int>)
    requires select.Select? && Enabled(s, select, true) && AfterClaimed(Occurrences(s.rows, select.chosen), nexts)
    ensures var s1 := Take(s, select);
            && Enabled(s1, Commit(select.w, nexts), true)
            && Take(s1, Commit(select.w, nexts)) == s.(rows := ClaimAll(s.rows, Elems(select.chosen), select.now, nexts),
                                                       log := s.log + Occurrences(s.rows, select.chosen))
  {
    assert Take(Take(s, select), Commit(select.w, nexts)).held == s.held;
  }

  lemma RunOfTwo(s: Scheduler, a: Step, b: Step, locking: bool) returns (steps: seq<Step>)
    requires Enabled(s, a, locking) && Enabled(Take(s, a), b, locking) && Earliest(s, a, locking) && !b.Select?
    ensures IsRun(s, steps, locking) && SelectsEarliest(s, steps, locking) && After(s, steps) == Take(Take(s, a), b)
  {
    RunCons(Take(s, a), b, [], locking);
    RunCons(s, a, [b] + [], locking);
    steps := [a] + ([b] + []);
  }

  /** A new worker claims everything due at `now`, a row among it, whose next run becomes `then_`. */
  lemma ClaimOnce(s: Scheduler, id: Id, now: int, then_: Option<int>) returns (steps: seq<Step>)
    requires id in s.rows && s.rows[id].active && s.rows[id].next == Some(now)
    requires now <= s.clock && id !in Locked(s) && (then_.Some? ==> now < then_.value)
    ensures IsRun(s, steps, true) && SelectsEarliest(s, steps, true)
    ensures var s' := After(s, steps);
            && s'.held == s.held && s'.clock == s.clock
            && id in s'.rows && s'.rows[id].active && s'.rows[id].next == then_
            && s.log <= s'.log && (id, now) in s'.log[|s.log|..]
  {
    var select := SelectAll(s, id, now);
    var due := Occurrences(s.rows, select.chosen);
    var nexts: Id -> Option<int> := x => if x == id then then_ else None;
    CommitAfterSelect(s, select, nexts);
    steps := RunOfTwo(s, select, Commit(select.w, nexts), true);
    assert (s.log + due)[|s.log|..] == due;
  }

  lemma SeenTwice<T>(a: seq<T>, b: seq<T>, x: T)
    requires x in a && x in b
    ensures !NoDup(a + b)
  {
    var i, j :| 0 <= i < |a| && a[i] == x && 0 <= j < |b| && b[j] == x;
    assert (a + b)[i] == (a + b)[|a| + j];
  }

  /** A row whose next run is a claimed occurrence, or lies before one, leads to a second claim. */
  lemma StaleRowIsClaimedTwice(s: Scheduler, id: Id, e: (Id, int)) returns (steps: seq<Step>)
    requires id in s.rows && s.rows[id].active && s.rows[id].next.Some? && id !in Locked(s)
    requires e in s.log && e.0 == id && s.rows[id].next.value <= e.1 <= s.clock
    ensures IsRun(s, steps, true) && SelectsEarliest(s, steps, true) && !NoDup(After(s, steps).log)
  {
    var next := s.rows[id].next.value;
    if next == e.1 {
      steps := ClaimOnce(s, id, next, None);
      var log := After(s, steps).log;
      SeenTwice(s.log, log[|s.log|..], e);
      assert log == s.log + log[|s.log|..];
    } else {
      var first := ClaimOnce(s, id, next, Some(e.1));
      var s1 := After(s, first);
      var second := ClaimOnce(s1, id, e.1, None);
      RunConcat(s, first, second, true);
      steps := first + second;
      var log := After(s1, second).log;
      SeenTwice(s1.log, log[|s1.log|..], e);
      assert log == s1.log + log[|s1.log|..];
    }
  }

  /** When a worker holds the row it may roll back first. */
  lemma Unlock(s: Scheduler, id: Id) returns (steps: seq<Step>)
    requires HeldAreDue(s)
    ensures IsRun(s, steps, true) && SelectsEarliest(s, steps, true)
    ensures var s' := After(s, steps); s' == s.(held := s'.held) && id !in Locked(s')
  {
    steps := [];
    if id in Locked(s) {
      var w :| w in s.held && id in s.held[w].chosen;
      steps := [Rollback(w)];
      assert steps[1..] == [];
    }
  }

  /** Nothing is ever claimed twice from a state exactly when the next run of every active row is fresh. */
  lemma NothingTwiceIff(s: Scheduler)
    requires HeldAreDue(s) && LogIsPast(s)
    ensures NothingTwiceFrom(s) <==> NextsAreFresh(s)
  {
    if NextsAreFresh(s) {
      forall steps | IsRun(s, steps, true) ensures NoDup(After(s, steps).log) {
        NoOccurrenceIsClaimedTwice(s, steps);
      }
    } else {
      var id :| id in s.rows && !IsFresh(s.log, id, s.rows[id]);
      var e :| e in s.log && e.0 == id && e.1 >= s.rows[id].next.value;
      var unlock := Unlock(s, id);
      var claims := StaleRowIsClaimedTwice(After(s, unlock), id, e);
      RunConcat(s, unlock, claims, true);
      assert IsRun(s, unlock + claims, true);
    }
  }

  /**
   After an edit of an unlocked row, however late it lands, nothing is claimed twice exactly when the
   row is inactive or has no next run, or the next run lies after all occurrences claimed for the row.
   */
  lemma EditIsSafeIff(s: Scheduler, id: Id, row: Automation)
    requires HeldAreDue(s) && LoggedOnce(s) && id !in Locked(s)
    ensures NothingTwiceFrom(Take(s, Edit(id, row)))
            <==> (row.active && row.next.Some? ==> forall e | e in s.log && e.0 == id :: e.1 < row.next.value)
  {
    var s' := Take(s, Edit(id, row));
    EditKeepsHeldDue(s, id, row);
    NothingTwiceIff(s');
    if IsFresh(s.log, id, row) {
      forall x | x in s'.rows ensures IsFresh(s'.log, x, s'.rows[x]) {
        assert x != id ==> IsFresh(s.log, x, s.rows[x]);
      }
    } else {
      assert id in s'.rows && !IsFresh(s'.log, id, s'.rows[id]);
    }
  }

  /** An edit with the next run 5 that lands after the run at 5 was claimed. */
  lemma LateEditRunsTwice()
    ensures var s := Scheduler(map["a" := Automation(true, Some(20), Some(9))], 10, map[], [("a", 5)]);
            HeldAreDue(s) && LoggedOnce(s) && !NothingTwiceFrom(Take(s, Edit("a", Automation(true, Some(5), Some(9)))))
  {
    var s := Scheduler(map["a" := Automation(true, Some(20), Some(9))], 10, map[], [("a", 5)]);
    assert ("a", 5) in s.log;
    EditIsSafeIff(s, "a", Automation(true, Some(5), Some(9)));
  }

  /** After a commit nothing is claimed twice exactly when every next run it stores lies after the occurrence it claims. */
  lemma CommitIsSafeIff(s: Scheduler, w: Worker, nexts: Id -> Option<int>)
    requires HeldAreDue(s) && LoggedOnce(s) && w in s.held
    ensures NothingTwiceFrom(Take(s, Commit(w, nexts)))
            <==> forall e | e in s.held[w].due && nexts(e.0).Some? :: e.1 < nexts(e.0).value
  {
    CommitKeepsHeldDue(s, w, nexts);
    CommitLogsPast(s, w, nexts);
    CommitIsFreshIff(s, w, nexts);
    NothingTwiceIff(Take(s, Commit(w, nexts)));
  }

  /** One overdue automation, no claims yet. */
  const ONE_DUE := Scheduler(map["a" := Automation(true, Some(5), None)], 10, map[], [])

  lemma OneDueSelected()
    ensures IsSelection(ONE_DUE.rows, {}, 10, 1, ["a"])
    ensures Occurrences(ONE_DUE.rows, ["a"]) == [("a", 5)]
  {
    assert Available(ONE_DUE.rows, {}, 10) == {"a"};
    assert Elems(["a"]) == {"a"};
    assert ["a"][1..] == [];
  }

  const BOTH_HOLD := ONE_DUE.(held := map[1 := Selection(["a"], 10, [("a", 5)]), 2 := Selection(["a"], 10, [("a", 5)])])

  lemma BothSelect()
    ensures var a, b := Select(1, 10, 1, ["a"]), Select(2, 10, 1, ["a"]);
            Enabled(ONE_DUE, a, false) && Enabled(Take(ONE_DUE, a), b, false) && Take(Take(ONE_DUE, a), b) == BOTH_HOLD
  {
    OneDueSelected();
  }

  lemma BothCommit(none: Id -> Option<int>)
    requires forall id :: none(id).None?
    ensures var c, d := Commit(1, none), Commit(2, none);
            var s3 := Take(BOTH_HOLD, c);
            && Enabled(BOTH_HOLD, c, false) && Enabled(s3, d, false)
            && Take(s3, d).log == [("a", 5)] + [("a", 5)]
  {
  }

  lemma RunOfFour(s: Scheduler, a: Step, b: Step, c: Step, d: Step, locking: bool) returns (steps: seq<Step>)
    requires Enabled(s, a, locking) && Enabled(Take(s, a), b, locking)
    requires var s2 := Take(Take(s, a), b); Enabled(s2, c, locking) && Enabled(Take(s2, c), d, locking)
    requires Earliest(s, a, locking) && Earliest(Take(s, a), b, locking) && !c.Select? && !d.Select?
    ensures IsRun(s, steps, locking) && SelectsEarliest(s, steps, locking)
    ensures After(s, steps) == Take(Take(Take(Take(s, a), b), c), d)
  {
    var s1 := Take(s, a);
    var s2 := Take(s1, b);
    RunCons(Take(s2, c), d, [], locking);
    RunCons(s2, c, [d] + [], locking);
    RunCons(s1, b, [c] + ([d] + []), locking);
    RunCons(s, a, [b] + ([c] + ([d] + [])), locking);
    steps := [a] + ([b] + ([c] + ([d] + [])));
  }

  /**
   Without row locks the promise fails: two workers that select before either
   commits both claim the same occurrence.
   */
  lemma WithoutLocksAnOccurrenceIsClaimedTwice()
    ensures HeldAreDue(ONE_DUE) && LoggedOnce(ONE_DUE)
    ensures exists steps :: IsRun(ONE_DUE, steps, false) && SelectsEarliest(ONE_DUE, steps, false)
                            && !NoDup(After(ONE_DUE, steps).log)
  {
    var none: Id -> Option<int> := _ => None;
    OneDueSelected();
    BothSelect();
    BothCommit(none);
    var steps := RunOfFour(ONE_DUE, Select(1, 10, 1, ["a"]), Select(2, 10, 1, ["a"]), Commit(1, none), Commit(2, none), false);
    var log := After(ONE_DUE, steps).log;
    assert log[0] == log[1];
  }
}
