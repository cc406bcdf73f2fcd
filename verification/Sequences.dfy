/** Sequences without repetition: the order half of an OrderedDict. */
module Sequences {

  ghost predicate NoDup<T(!new)>(s: seq<T>) {
    forall i, j :: 0 <= i < j < |s| ==> s[i] != s[j]
  }

  /** `pop`: every occurrence of x is dropped, the others keep their order. */
  function Without<T(==,!new)>(s: seq<T>, x: T): (r: seq<T>)
    ensures |r| <= |s|
    ensures x in s ==> |r| < |s|
    ensures forall y :: y in r <==> y in s && y != x
  {
    if s == [] then []
    else if s[0] == x then Without(s[1..], x)
    else [s[0]] + Without(s[1..], x)
  }

  lemma {:induction false} WithoutAbsent<T(!new)>(s: seq<T>, x: T)
    requires x !in s
    ensures Without(s, x) == s
  {
    if s == [] {
    } else {
      WithoutAbsent(s[1..], x);
      assert s == [s[0]] + s[1..];
    }
  }

  lemma {:induction false} WithoutNoDup<T(!new)>(s: seq<T>, x: T)
    requires NoDup(s)
    ensures NoDup(Without(s, x))
    ensures |Without(s, x)| == if x in s then |s| - 1 else |s|
  {
    if s == [] {
    } else if s[0] == x {
      assert x !in s[1..];
      WithoutAbsent(s[1..], x);
    } else {
      WithoutNoDup(s[1..], x);
      assert s == [s[0]] + s[1..];
      assert s[0] !in s[1..];
    }
  }

  lemma WithoutFirst<T(!new)>(s: seq<T>)
    requires s != [] && NoDup(s)
    ensures Without(s, s[0]) == s[1..]
  {
    assert s[0] !in s[1..];
    WithoutAbsent(s[1..], s[0]);
  }

  lemma NoDupAppend<T(!new)>(s: seq<T>, x: T)
    requires NoDup(s) && x !in s
    ensures NoDup(s + [x])
  {
  }

  /** `move_to_end`, or an insertion when x is new. */
  function MovedToEnd<T(==,!new)>(s: seq<T>, x: T): seq<T> {
    Without(s, x) + [x]
  }

  lemma MovedToEndNoDup<T(!new)>(s: seq<T>, x: T)
    requires NoDup(s)
    ensures NoDup(MovedToEnd(s, x))
    ensures forall y :: y in MovedToEnd(s, x) <==> y in s || y == x
  {
    WithoutNoDup(s, x);
    NoDupAppend(Without(s, x), x);
  }

  lemma Regroup<T>(a: seq<T>, b: seq<T>, c: seq<T>)
    ensures (a + b) + c == a + (b + c)
  {
  }

  /** A sequence has as many different elements as positions exactly when nothing repeats. */
  lemma {:induction false} DistinctIff<T(!new)>(s: seq<T>)
    ensures |set x | x in s| <= |s|
    ensures |set x | x in s| == |s| <==> NoDup(s)
  {
    if s != [] {
      var rest, all := set x | x in s[1..], set x | x in s;
      DistinctIff(s[1..]);
      assert all == rest + {s[0]};
      if s[0] in rest {
        assert all == rest;
        var i :| 0 <= i < |s[1..]| && s[1..][i] == s[0];
        assert s[i + 1] == s[0];
      } else {
        assert NoDup(s) <==> NoDup(s[1..]) by {
          assert forall i :: 0 < i < |s| ==> s[i] == s[1..][i - 1];
        }
      }
    }
  }
}
