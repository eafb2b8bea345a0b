/** Shared vocabulary: optional values, C++ truncation, and the increasing key order in which
    a `std::map<size_t, T>` is walked. */
module Basics {

  datatype Option<+T> = None | Some(value: T)

  /** Ends a C string. */
  const NUL := '\0'

  predicate NulFree(s: string) {
    NUL !in s
  }

  /** Conversion of a floating value to a C++ integer: the fraction is dropped, so the result
      moves towards zero. */
  function Trunc(r: real): int {
    if r >= 0.0 then r.Floor else -((-r).Floor)
  }

  function Abs(r: real): real {
    if r >= 0.0 then r else -r
  }

  lemma TruncWithinOne(r: real)
    ensures Abs(Trunc(r) as real - r) < 1.0
    ensures Abs(Trunc(r) as real) <= Abs(r)
  {
  }

  lemma TruncMonotone(a: real, b: real)
    requires a <= b
    ensures Trunc(a) <= Trunc(b)
  {
    var fa, fb := a.Floor, b.Floor;
    assert fa as real <= a && b < fb as real + 1.0;
  }

  lemma ProductStrict(a: real, b: real, c: real)
    requires a < b && c > 0.0
    ensures a * c < b * c
  {
  }

  ghost predicate AllIn<T>(ids: seq<nat>, m: map<nat, T>) {
    forall k :: 0 <= k < |ids| ==> ids[k] in m
  }

  ghost predicate Increasing(s: seq<nat>) {
    forall i, j :: 0 <= i < j < |s| ==> s[i] < s[j]
  }

  ghost predicate IsLeast(m: nat, ids: set<nat>) {
    m in ids && forall x :: x in ids ==> m <= x
  }

  lemma {:induction false} LeastExists(ids: set<nat>, y: nat)
    requires y in ids
    ensures exists m :: IsLeast(m, ids)
    decreases y
  {
    if x :| x in ids && x < y {
      LeastExists(ids, x);
    } else {
      assert IsLeast(y, ids);
    }
  }

  function Least(ids: set<nat>): (m: nat)
    requires ids != {}
    ensures IsLeast(m, ids)
  {
    assert exists m :: IsLeast(m, ids) by {
      var y :| y in ids;
      LeastExists(ids, y);
    }
    var m :| m in ids && forall x :: x in ids ==> m <= x;
    m
  }

  /** The keys of a `std::map<size_t, T>` in the order its iterators visit them. */
  function SortedIds(ids: set<nat>): seq<nat> {
    if ids == {} then [] else [Least(ids)] + SortedIds(ids - {Least(ids)})
  }

  lemma {:induction false} SortedIdsSpec(ids: set<nat>)
    ensures Increasing(SortedIds(ids))
    ensures forall x :: x in SortedIds(ids) <==> x in ids
    ensures |SortedIds(ids)| == |ids|
  {
    if ids != {} {
      var m := Least(ids);
      var others := ids - {m};
      var rest := SortedIds(others);
      SortedIdsSpec(others);
      forall i | 0 <= i < |rest| ensures m < rest[i] {
        assert rest[i] in others;
      }
      assert SortedIds(ids) == [m] + rest;
    }
  }
}
