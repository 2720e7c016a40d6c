/** Small containers and sequence helpers shared by the models. */
module Common {
  datatype Option<+T> = None | Some(value: T)

  datatype Result<+T, +E> = Ok(value: T) | Err(error: E)

  ghost predicate NoDup<T>(s: seq<T>) {
    forall i, j :: 0 <= i < j < |s| ==> s[i] != s[j]
  }

  /** `Vec::retain(|y| y != x)`: order is kept, every occurrence of `x` goes. */
  function Without<T(==,!new)>(s: seq<T>, x: T): (r: seq<T>)
    ensures forall y :: y in r <==> y in s && y != x
    ensures x !in s ==> r == s
    ensures |r| <= |s|
  {
    if s == [] then []
    else if s[0] == x then
      assert s == [s[0]] + s[1..];
      Without(s[1..], x)
    else
      assert s == [s[0]] + s[1..];
      [s[0]] + Without(s[1..], x)
  }

  lemma WithoutNoDup<T(!new)>(s: seq<T>, x: T)
    requires NoDup(s)
    ensures NoDup(Without(s, x))
  {
    if s != [] {
      var rest := Without(s[1..], x);
      WithoutNoDup(s[1..], x);
      forall i | 0 <= i < |rest| ensures rest[i] != s[0] {
        assert rest[i] in s[1..];
      }
    }
  }

  /** Removing at an absent element changes nothing; removing the element just pushed undoes the push. */
  lemma WithoutPush<T(!new)>(s: seq<T>, x: T)
    requires x !in s
    ensures Without(s + [x], x) == s
  {
    if s == [] {
      assert s + [x] == [x];
    } else {
      assert (s + [x])[1..] == s[1..] + [x];
      WithoutPush(s[1..], x);
    }
  }

  /** A duplicate-free sequence drawn from a finite set is no longer than the set. */
  lemma {:induction false} NoDupBound<T>(s: seq<T>, universe: set<T>)
    requires NoDup(s)
    requires forall x :: x in s ==> x in universe
    ensures |s| <= |universe|
  {
    if s != [] {
      var rest := s[..|s| - 1];
      assert s == rest + [s[|s| - 1]];
      forall x | x in rest ensures x in universe - {s[|s| - 1]} {
        var i :| 0 <= i < |rest| && rest[i] == x;
        assert s[i] == x;
      }
      NoDupBound(rest, universe - {s[|s| - 1]});
    }
  }

  /** Listed in the order of when. */
  ghost predicate InOrder<T>(s: seq<T>, when: T -> int) {
    forall i, j :: 0 <= i < j < |s| ==> when(s[i]) < when(s[j])
  }

  lemma {:induction false} WithoutInOrder<T(!new)>(s: seq<T>, x: T, when: T -> int)
    requires InOrder(s, when)
    ensures InOrder(Without(s, x), when)
  {
    if s != [] {
      var rest := Without(s[1..], x);
      WithoutInOrder(s[1..], x, when);
      forall i | 0 <= i < |rest| ensures when(s[0]) < when(rest[i]) {
        assert rest[i] in s[1..];
        var k :| 0 <= k < |s[1..]| && s[1..][k] == rest[i];
        assert s[k + 1] == rest[i];
      }
    }
  }

  lemma PushInOrder<T>(s: seq<T>, x: T, was: T -> int, when: T -> int)
    requires InOrder(s, was) && forall y :: y in s ==> when(y) == was(y) < when(x)
    ensures InOrder(s + [x], when)
  {
  }

  lemma StillInOrder<T>(s: seq<T>, was: T -> int, when: T -> int)
    requires InOrder(s, was) && forall y :: y in s ==> when(y) == was(y)
    ensures InOrder(s, when)
  {
  }
}
