/** Datatypes and sequence helpers shared by the other modules. */
module Prelude {

  datatype Option<+T> = None | Some(value: T)

  datatype Result<+T, +E> = Success(value: T) | Failure(error: E) {
    predicate IsFailure() {
      Failure?
    }

    function PropagateFailure<U>(): Result<U, E>
      requires Failure?
    {
      Failure(error)
    }

    function Extract(): T
      requires Success?
    {
      value
    }
  }

  predicate Distinct<T(==)>(s: seq<T>) {
    forall i, j :: 0 <= i < j < |s| ==> s[i] != s[j]
  }

  function Elements<T>(s: seq<T>): set<T> {
    set x | x in s
  }

  function Filter<T(!new)>(keep: T -> bool, s: seq<T>): (r: seq<T>)
    ensures forall x :: x in r <==> x in s && keep(x)
    ensures |r| <= |s|
  {
    if s == [] then []
    else
      var last := s[|s| - 1];
      var front := Filter(keep, s[..|s| - 1]);
      assert s == s[..|s| - 1] + [last];
      if keep(last) then front + [last] else front
  }

  /** The first occurrence of every value, in order. */
  function Dedupe<T(==)>(s: seq<T>): (r: seq<T>)
    ensures Elements(r) == Elements(s)
    ensures Distinct(r)
  {
    if s == [] then []
    else
      var front := Dedupe(s[..|s| - 1]);
      var last := s[|s| - 1];
      ElementsSnoc(s[..|s| - 1], last);
      ElementsSnoc(front, last);
      assert s == s[..|s| - 1] + [last];
      assert last in front <==> last in Elements(front);
      if last in front then front else front + [last]
  }

  /** Every value is kept where it occurs first, in the order of these places. */
  lemma {:induction false} FirstPlaces<T>(s: seq<T>) returns (places: seq<nat>)
    ensures |places| == |Dedupe(s)|
    ensures forall k :: 0 <= k < |places| ==>
      places[k] < |s| && s[places[k]] == Dedupe(s)[k] && s[places[k]] !in s[..places[k]]
    ensures forall k, l :: 0 <= k < l < |places| ==> places[k] < places[l]
  {
    if s == [] {
      places := [];
    } else {
      var n := |s| - 1;
      var front := s[..n];
      places := FirstPlaces(front);
      assert forall k :: 0 <= k < |places| ==> s[..places[k]] == front[..places[k]];
      if s[n] !in front {
        assert s[n] !in Dedupe(front) by {
          assert s[n] !in Elements(Dedupe(front));
        }
        places := places + [n];
      } else {
        assert s[n] in Elements(Dedupe(front));
      }
    }
  }

  lemma ElementsSnoc<T>(s: seq<T>, x: T)
    ensures Elements(s + [x]) == Elements(s) + {x}
  {
    forall y | y in Elements(s) + {x} ensures y in Elements(s + [x]) {
      assert y in s + [x];
    }
  }

  lemma {:induction false} DistinctFits<T>(s: seq<T>, all: set<T>)
    requires Distinct(s) && Elements(s) <= all
    ensures |s| <= |all|
  {
    if s != [] {
      var x := s[|s| - 1];
      assert x in Elements(s);
      assert x !in s[..|s| - 1];
      assert Elements(s[..|s| - 1]) <= all - {x};
      DistinctFits(s[..|s| - 1], all - {x});
    }
  }

  lemma {:induction false} FilterAll<T(!new)>(keep: T -> bool, s: seq<T>)
    requires forall x :: x in s ==> keep(x)
    ensures Filter(keep, s) == s
  {
    if s != [] {
      assert s == s[..|s| - 1] + [s[|s| - 1]];
      FilterAll(keep, s[..|s| - 1]);
    }
  }

  /** Python's `str.isspace` on one character. */
  predicate IsSpace(c: char) {
    var u := c as int;
    || 0x09 <= u <= 0x0d || 0x1c <= u <= 0x20 || u == 0x85 || u == 0xa0 || u == 0x1680
    || 0x2000 <= u <= 0x200a || u == 0x2028 || u == 0x2029 || u == 0x202f || u == 0x205f || u == 0x3000
  }
}
