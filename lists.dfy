/** The List<T> operations the engine's public API is built from. The
    collections hold values here, so `IndexOf` and `RemoveAll` compare by
    value where the source compares references. */
module Lists {
  import opened Wrappers

  /** `RemoveAt(count - 1)` for index -1, `RemoveAt(index)` for an index in
      range, and nothing for an empty list or any other index. */
  function RemoveByIndex<T>(s: seq<T>, index: int): seq<T> {
    if |s| == 0 then s
    else if index == -1 then s[..|s| - 1]
    else if 0 <= index < |s| then s[..index] + s[index + 1..]
    else s
  }

  /** Whether `index` names an element for RemoveByIndex. */
  predicate NamesElement<T>(s: seq<T>, index: int) {
    |s| > 0 && (index == -1 || 0 <= index < |s|)
  }

  /** The position RemoveByIndex takes an element from. */
  function RemovedPosition<T>(s: seq<T>, index: int): (p: nat)
    requires NamesElement(s, index)
    ensures p < |s|
  {
    if index == -1 then |s| - 1 else index
  }

  /** RemoveByIndex drops exactly the element it names and keeps the others
      in order; an index that names nothing leaves the list alone. */
  lemma RemoveByIndexDropsOne<T>(s: seq<T>, index: int)
    ensures NamesElement(s, index) ==>
              var p := RemovedPosition(s, index);
              |RemoveByIndex(s, index)| == |s| - 1 &&
              (forall k :: 0 <= k < p ==> RemoveByIndex(s, index)[k] == s[k]) &&
              (forall k :: p <= k < |s| - 1 ==> RemoveByIndex(s, index)[k] == s[k + 1]) &&
              multiset(RemoveByIndex(s, index)) + multiset{s[p]} == multiset(s)
    ensures !NamesElement(s, index) ==> RemoveByIndex(s, index) == s
  {
    if NamesElement(s, index) {
      var p := RemovedPosition(s, index);
      assert s == s[..p] + [s[p]] + s[p + 1..];
      assert RemoveByIndex(s, index) == s[..p] + s[p + 1..];
    }
  }

  /** GetSelectionMethod / GetFieldFunction: the element at `index`, or
      null (None) for an empty list or an index out of range. */
  function GetByIndex<T>(s: seq<T>, index: int): (r: Option<T>)
    ensures r.Some? <==> 0 <= index < |s|
    ensures r.Some? ==> r.value == s[index]
  {
    if |s| == 0 then None
    else if index < 0 || index >= |s| then None
    else Some(s[index])
  }

  /** List.IndexOf: the first position holding `x`, or -1. */
  function IndexOf<T(==, !new)>(s: seq<T>, x: T): (r: int)
    ensures r == -1 <==> x !in s
    ensures r != -1 ==> 0 <= r < |s| && s[r] == x && x !in s[..r]
  {
    if |s| == 0 then -1
    else if s[0] == x then 0
    else
      var k := IndexOf(s[1..], x);
      assert s[1..][..if k < 0 then 0 else k] == s[1..1 + if k < 0 then 0 else k];
      if k == -1 then -1 else k + 1
  }

  /** The element GetByIndex finds is first found by IndexOf at that index
      or earlier. */
  lemma IndexOfWhatGetFinds<T(!new)>(s: seq<T>, index: int)
    requires GetByIndex(s, index).Some?
    ensures 0 <= IndexOf(s, GetByIndex(s, index).value) <= index
  {
    var x := GetByIndex(s, index).value;
    assert s[index] == x;
    var r := IndexOf(s, x);
    assert forall k :: 0 <= k < r ==> s[..r][k] == s[k];
  }

  /** List.RemoveAll with an equality predicate: every element equal to `x`
      goes, the others stay in order. */
  function RemoveAll<T(==, !new)>(s: seq<T>, x: T): (r: seq<T>)
    ensures x !in r
    ensures |r| <= |s|
    ensures forall y :: y in r <==> y in s && y != x
  {
    if |s| == 0 then []
    else (if s[0] == x then [] else [s[0]]) + RemoveAll(s[1..], x)
  }

  /** RemoveAll only deletes: the other elements keep their number of
      occurrences. */
  lemma {:induction false} RemoveAllCounts<T(!new)>(s: seq<T>, x: T)
    ensures multiset(RemoveAll(s, x)) == multiset(s)[x := 0]
  {
    if |s| > 0 {
      RemoveAllCounts(s[1..], x);
      assert s == [s[0]] + s[1..];
      assert multiset(s) == multiset{s[0]} + multiset(s[1..]);
    }
  }

  /** RemoveAll of something absent changes nothing, so a second RemoveAll
      of the same element does nothing. */
  lemma {:induction false} RemoveAllAbsent<T(!new)>(s: seq<T>, x: T)
    requires x !in s
    ensures RemoveAll(s, x) == s
  {
    if |s| > 0 {
      assert s[0] != x;
      RemoveAllAbsent(s[1..], x);
      assert s == [s[0]] + s[1..];
    }
  }

  /** RemoveAll distributes over concatenation, so an element appended and
      then removed leaves what RemoveAll of the original leaves. */
  lemma {:induction false} RemoveAllAppend<T(!new)>(a: seq<T>, b: seq<T>, x: T)
    ensures RemoveAll(a + b, x) == RemoveAll(a, x) + RemoveAll(b, x)
  {
    if |a| > 0 {
      assert (a + b)[1..] == a[1..] + b;
      RemoveAllAppend(a[1..], b, x);
    } else {
      assert a + b == b;
    }
  }

  /** Concatenation is associative. */
  lemma AppendAssoc<T>(a: seq<T>, b: seq<T>, c: seq<T>)
    ensures a + b + c == a + (b + c)
  {
  }
}
