/**
 Vocabulary shared by the other modules: optional values, the keys of a JSON
 object, and facts about duplicate-free sequences and finite sets.
 */
module Prelude {

  /** Identifiers are strings; the empty string is falsy and names nothing. */
  type Id = string

  datatype Option<+T> = None | Some(value: T)

  /** One key of a JSON object: missing, or present with a value. */
  datatype Field<+T> = Absent | Present(value: T)
  {
    function GetOr(default: T): T
    {
      if Present? then value else default
    }
  }

  /** An id that the program's truth test accepts. */
  function Truthy(id: Option<Id>): (r: Option<Id>)
    ensures r.Some? ==> r == id && r.value != ""
  {
    if id.Some? && id.value != "" then id else None
  }

  /** The program's `a or b` on optional ids. */
  function Or(a: Option<Id>, b: Option<Id>): Option<Id>
  {
    if Truthy(a).Some? then a else b
  }

  ghost predicate NoDup<T>(s: seq<T>)
  {
    forall i, j | 0 <= i < j < |s| :: s[i] != s[j]
  }

  function Elems<T>(s: seq<T>): set<T>
  {
    set x | x in s
  }

  lemma NoDupAppend<T>(s: seq<T>, x: T)
    requires NoDup(s) && x !in s
    ensures NoDup(s + [x])
  {
  }

  lemma NoDupPrefix<T>(s: seq<T>, t: seq<T>)
    requires s <= t && NoDup(t)
    ensures NoDup(s)
  {
  }

  lemma NoDupConcat<T>(s: seq<T>, t: seq<T>)
    requires NoDup(s) && NoDup(t)
    requires forall x | x in s :: x !in t
    ensures NoDup(s + t)
  {
    forall i, j | 0 <= i < j < |s + t| ensures (s + t)[i] != (s + t)[j] {
      if i < |s| <= j {
        assert s[i] in s && t[j - |s|] in t;
      }
    }
  }

  lemma SubsetSize<T>(a: set<T>, b: set<T>)
    requires a <= b
    ensures |a| <= |b|
    ensures |a| == |b| ==> a == b
  {
    assert b == a + (b - a);
    assert |b| == |a| + |b - a|;
  }

  lemma {:induction false} NoDupSize<T>(s: seq<T>)
    requires NoDup(s)
    ensures |Elems(s)| == |s|
  {
    if s != [] {
      var t := s[..|s| - 1];
      assert s == t + [s[|s| - 1]];
      NoDupPrefix(t, s);
      NoDupSize(t);
      assert Elems(s) == Elems(t) + {s[|s| - 1]};
    }
  }

  // ------------------------------------------------------------- iteration

  function Iterate<T>(f: T -> T, x: T, n: nat): T
  {
    if n == 0 then x else f(Iterate(f, x, n - 1))
  }

  /** Steps that keep an invariant and raise a measure, unless it is already full, fill it in time. */
  lemma {:induction false} IterateGains<T(!new)>(f: T -> T, x: T, n: nat, inv: T -> bool, measure: T -> int, full: int)
    requires inv(x)
    requires forall y {:trigger f(y)} | inv(y) :: inv(f(y)) && (measure(f(y)) >= full || measure(f(y)) > measure(y))
    ensures inv(Iterate(f, x, n))
    ensures n == 0 || measure(Iterate(f, x, n)) >= full || measure(Iterate(f, x, n)) >= measure(x) + n
  {
    if n > 0 {
      IterateGains(f, x, n - 1, inv, measure, full);
    }
  }
}
