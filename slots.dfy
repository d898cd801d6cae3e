/** Python's sorted() on the slot numbers of a dict. */
module Slots {

  /** Every non-empty finite set of slots has a least one. */
  lemma HasMinimum(s: set<int>)
    requires s != {}
    ensures exists m :: m in s && forall y :: y in s ==> m <= y
  {
    var m := Least(s);
  }

  lemma {:induction false} Least(s: set<int>) returns (m: int)
    requires s != {}
    ensures m in s && forall y :: y in s ==> m <= y
    decreases |s|
  {
    Inhabited(s);
    var x :| x in s;
    var rest := s - {x};
    if rest == {} {
      m := x;
      assert s == {x};
    } else {
      var m' := Least(rest);
      m := if x <= m' then x else m';
      assert s == rest + {x};
    }
  }

  /** A set is empty or holds some element. */
  lemma Inhabited(s: set<int>)
    ensures s == {} || exists x :: x in s
  {
    if forall y :: y !in s {
      assert s == {};
    }
  }

  /** Taking one more slot off the ones still to do adds it to the ones done. */
  lemma TakeOne(all: set<int>, todo: set<int>, s: int)
    requires s in todo && todo <= all
    ensures all - (todo - {s}) == (all - todo) + {s}
    ensures |todo - {s}| < |todo|
  {
  }

  function MinOf(s: set<int>): (m: int)
    requires s != {}
    ensures m in s
    ensures forall y :: y in s ==> m <= y
  {
    HasMinimum(s);
    var m :| m in s && forall y :: y in s ==> m <= y;
    m
  }

  predicate Increasing(r: seq<int>) {
    forall i, j :: 0 <= i < j < |r| ==> r[i] < r[j]
  }

  /** sorted(keys): every slot once, in ascending order. */
  function SortedKeys(s: set<int>): (r: seq<int>)
    ensures |r| == |s|
    ensures forall x :: x in r <==> x in s
    ensures Increasing(r)
    decreases |s|
  {
    if s == {} then []
    else
      var m := MinOf(s);
      var rest := SortedKeys(s - {m});
      IncreasingPrepend(m, rest);
      [m] + rest
  }

  lemma IncreasingPrepend(m: int, rest: seq<int>)
    requires Increasing(rest) && forall x :: x in rest ==> m < x
    ensures Increasing([m] + rest)
  {
    var r := [m] + rest;
    forall i, j | 0 <= i < j < |r| ensures r[i] < r[j] {
      if i == 0 { assert r[j] == rest[j - 1]; assert r[j] in rest; }
      else { assert r[i] == rest[i - 1] && r[j] == rest[j - 1]; }
    }
  }

  /** The least element of a set is the first of its ascending order. */
  lemma SortedKeysStep(s: set<int>, m: int)
    requires m in s && forall x :: x in s ==> m <= x
    ensures SortedKeys(s) == [m] + SortedKeys(s - {m})
  {
    assert MinOf(s) <= m && m <= MinOf(s);
  }
}
