/** Ascending sort by a real key: the contract of Array.Sort on the float
    keys of GetRaycastResult, and the order the nearest-target selection
    promises. Insertion places an element before the first one whose key
    is not smaller. */
module Sorting {

  predicate SortedBy<T>(s: seq<T>, key: T -> real) {
    forall i, j :: 0 <= i < j < |s| ==> key(s[i]) <= key(s[j])
  }

  function Insert<T>(x: T, s: seq<T>, key: T -> real): (r: seq<T>)
    ensures multiset(r) == multiset(s) + multiset{x}
    ensures |r| == |s| + 1
  {
    if |s| == 0 then [x]
    else if key(x) <= key(s[0]) then [x] + s
    else
      assert s == [s[0]] + s[1..];
      [s[0]] + Insert(x, s[1..], key)
  }

  lemma {:induction false} InsertKeepsSorted<T>(x: T, s: seq<T>, key: T -> real)
    requires SortedBy(s, key)
    ensures SortedBy(Insert(x, s, key), key)
    decreases |s|
  {
    if |s| > 0 && key(x) > key(s[0]) {
      var tail := s[1..];
      assert SortedBy(tail, key);
      InsertKeepsSorted(x, tail, key);
      var t := Insert(x, tail, key);
      var r := [s[0]] + t;
      forall i | 0 <= i < |t| ensures key(s[0]) <= key(t[i]) {
        assert t[i] in multiset(t);
        if t[i] != x {
          assert t[i] in multiset(tail);
          var j :| 0 <= j < |tail| && tail[j] == t[i];
          assert s[j + 1] == t[i];
        }
      }
      forall i, j | 0 <= i < j < |r| ensures key(r[i]) <= key(r[j]) {
        if i > 0 {
          assert r[i] == t[i - 1] && r[j] == t[j - 1];
        } else {
          assert r[j] == t[j - 1];
        }
      }
    }
  }

  function SortBy<T>(s: seq<T>, key: T -> real): (r: seq<T>)
    ensures multiset(r) == multiset(s)
    ensures SortedBy(r, key)
  {
    if |s| == 0 then []
    else
      assert s == [s[0]] + s[1..];
      var t := SortBy(s[1..], key);
      InsertKeepsSorted(s[0], t, key);
      Insert(s[0], t, key)
  }

  function Keys<T>(s: seq<T>, key: T -> real): (r: seq<real>)
    ensures |r| == |s|
    ensures forall i :: 0 <= i < |s| ==> r[i] == key(s[i])
  {
    if |s| == 0 then [] else [key(s[0])] + Keys(s[1..], key)
  }

  function Id(x: real): real { x }

  predicate Ascending(s: seq<real>) {
    SortedBy(s, Id)
  }

  /** Sorting commutes with taking the keys. */
  lemma {:induction false} KeysOfInsert<T>(x: T, s: seq<T>, key: T -> real)
    ensures Keys(Insert(x, s, key), key) == Insert(key(x), Keys(s, key), Id)
    decreases |s|
  {
    if |s| > 0 && key(x) > key(s[0]) {
      KeysOfInsert(x, s[1..], key);
      assert Keys(s, key)[1..] == Keys(s[1..], key);
    }
  }

  lemma {:induction false} KeysOfSort<T>(s: seq<T>, key: T -> real)
    ensures Keys(SortBy(s, key), key) == SortBy(Keys(s, key), Id)
    decreases |s|
  {
    if |s| > 0 {
      KeysOfSort(s[1..], key);
      KeysOfInsert(s[0], SortBy(s[1..], key), key);
      assert Keys(s, key)[1..] == Keys(s[1..], key);
    }
  }

  /** The least element of a non-empty ascending sequence comes first. */
  lemma HeadIsLeast(s: seq<real>, y: real)
    requires Ascending(s) && y in s
    ensures s[0] <= y
  {
    var j :| 0 <= j < |s| && s[j] == y;
    if j > 0 {
      assert Id(s[0]) <= Id(s[j]);
    }
  }

  lemma AscendingTail(s: seq<real>)
    requires Ascending(s) && |s| > 0
    ensures Ascending(s[1..])
  {
    forall i, j | 0 <= i < j < |s| - 1 ensures Id(s[1..][i]) <= Id(s[1..][j]) {
      assert Id(s[i + 1]) <= Id(s[j + 1]);
    }
  }

  lemma MultisetOfTail(s: seq<real>)
    requires |s| > 0
    ensures multiset(s[1..]) == multiset(s) - multiset{s[0]}
  {
    assert s == [s[0]] + s[1..];
  }

  /** An ascending order of a multiset of keys is unique. */
  lemma {:induction false} AscendingUnique(a: seq<real>, b: seq<real>)
    requires Ascending(a) && Ascending(b)
    requires multiset(a) == multiset(b)
    ensures a == b
    decreases |a|
  {
    assert |a| == |multiset(a)| == |multiset(b)| == |b|;
    if |a| > 0 {
      assert a[0] == b[0] by {
        assert a[0] in multiset(b) && b[0] in multiset(a);
        HeadIsLeast(a, b[0]);
        HeadIsLeast(b, a[0]);
      }
      MultisetOfTail(a);
      MultisetOfTail(b);
      AscendingTail(a);
      AscendingTail(b);
      AscendingUnique(a[1..], b[1..]);
      assert a == [a[0]] + a[1..] && b == [b[0]] + b[1..];
    }
  }
}
