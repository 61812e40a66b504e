/**
 * `insert_number(num, sorted_list)`: inserts `num` into a list in place,
 * before the first element strictly greater than it, or at the end when
 * there is none; and the driver that inserts a stream of numbers one at a
 * time into an initially empty list.
 */
module SortedInsert {

  /** A Python list of integers, changed in place. */
  class IntList {
    var items: seq<int>

    constructor ()
      ensures items == []
    {
      items := [];
    }
  }

  predicate Sorted(s: seq<int>) {
    forall i, j :: 0 <= i < j < |s| ==> s[i] <= s[j]
  }

  /** The index of the first element strictly greater than `num`, or the
      length when there is none. */
  function FirstGreater(s: seq<int>, num: int): (r: nat)
    ensures r <= |s|
    ensures forall k :: 0 <= k < r ==> s[k] <= num
    ensures r < |s| ==> num < s[r]
    decreases |s|
  {
    if |s| == 0 then 0
    else if num < s[0] then 0
    else 1 + FirstGreater(s[1..], num)
  }

  /** The list after `insert_number(num, s)`: `num` goes in front of the
      first element strictly greater than it. */
  function Inserted(s: seq<int>, num: int): (r: seq<int>)
    ensures |r| == |s| + 1
    decreases |s|
  {
    if |s| == 0 then [num]
    else if num < s[0] then [num] + s
    else [s[0]] + Inserted(s[1..], num)
  }

  /** The insertion splits the list at `FirstGreater`. */
  lemma {:induction false} InsertedSplit(s: seq<int>, num: int)
    ensures var i := FirstGreater(s, num);
      Inserted(s, num) == s[..i] + [num] + s[i..]
    decreases |s|
  {
    if |s| > 0 && num >= s[0] {
      InsertedSplit(s[1..], num);
      var i := FirstGreater(s[1..], num);
      assert s[..i + 1] == [s[0]] + s[1..][..i];
      assert s[i + 1..] == s[1..][i..];
    }
  }

  /** The conditions that pin down `FirstGreater`. */
  lemma FirstGreaterIs(s: seq<int>, num: int, i: nat)
    requires i <= |s|
    requires forall k :: 0 <= k < i ==> s[k] <= num
    requires i < |s| ==> num < s[i]
    ensures FirstGreater(s, num) == i
  {
  }

  /** `insert_number(num, list)`. */
  method InsertNumber(num: int, list: IntList)
    modifies list
    ensures list.items == Inserted(old(list.items), num)
  {
    for i := 0 to |list.items|
      invariant list.items == old(list.items)
      invariant forall k :: 0 <= k < i ==> list.items[k] <= num
    {
      if num < list.items[i] {
        FirstGreaterIs(list.items, num, i);
        InsertedSplit(list.items, num);
        list.items := list.items[..i] + [num] + list.items[i..];
        return;
      }
    }
    FirstGreaterIs(list.items, num, |list.items|);
    InsertedSplit(list.items, num);
    list.items := list.items + [num];
  }

  /** Insertion keeps a non-decreasing list non-decreasing. */
  lemma InsertedSorted(s: seq<int>, num: int)
    requires Sorted(s)
    ensures Sorted(Inserted(s, num))
  {
    var i := FirstGreater(s, num);
    var t := Inserted(s, num);
    InsertedSplit(s, num);
    forall a, b | 0 <= a < b < |t| ensures t[a] <= t[b] {
      if b < i {
        assert t[a] == s[a] && t[b] == s[b];
      } else if b == i {
        assert t[a] == s[a];
      } else if a < i {
        assert t[a] == s[a] && t[b] == s[b - 1];
      } else if a == i {
        assert t[b] == s[b - 1];
      } else {
        assert t[a] == s[a - 1] && t[b] == s[b - 1];
      }
    }
  }

  /** The list grows by one and its elements gain exactly `num`. */
  lemma {:induction false} InsertedElements(s: seq<int>, num: int)
    ensures |Inserted(s, num)| == |s| + 1
    ensures multiset(Inserted(s, num)) == multiset(s) + multiset{num}
    decreases |s|
  {
    if |s| > 0 && num >= s[0] {
      InsertedElements(s[1..], num);
      assert s == [s[0]] + s[1..];
      assert multiset(s) == multiset{s[0]} + multiset(s[1..]);
    }
  }

  /** `num` lands at the first index holding a strictly greater element;
      the elements before it are unchanged and the rest move one place
      right. */
  lemma InsertedPlace(s: seq<int>, num: int)
    ensures var i := FirstGreater(s, num);
      var t := Inserted(s, num);
      && t[i] == num
      && (forall k :: 0 <= k < i ==> t[k] == s[k])
      && (forall k :: i <= k < |s| ==> t[k + 1] == s[k])
  {
    InsertedSplit(s, num);
  }

  /** In a sorted list the elements equal to `num` stay in front of it. */
  lemma EqualStayBefore(s: seq<int>, num: int)
    requires Sorted(s)
    ensures forall k :: 0 <= k < |s| && s[k] == num ==> k < FirstGreater(s, num)
  {
  }

  /** When no element is greater than `num` (the empty list included),
      `num` goes to the end. */
  lemma AppendWhenLargest(s: seq<int>, num: int)
    requires forall k :: 0 <= k < |s| ==> s[k] <= num
    ensures Inserted(s, num) == s + [num]
  {
    FirstGreaterIs(s, num, |s|);
    InsertedSplit(s, num);
  }

  /** The list after inserting the numbers of `stream` in turn into an
      empty list. */
  function InsertAll(stream: seq<int>): seq<int>
    decreases |stream|
  {
    if |stream| == 0 then []
    else Inserted(InsertAll(stream[..|stream| - 1]), stream[|stream| - 1])
  }

  /** The driver loop of the script, without its printing. */
  method InsertStream(stream: seq<int>) returns (list: IntList)
    ensures fresh(list)
    ensures list.items == InsertAll(stream)
  {
    list := new IntList();
    for n := 0 to |stream|
      invariant list.items == InsertAll(stream[..n])
    {
      assert stream[..n + 1][..n] == stream[..n];
      InsertNumber(stream[n], list);
    }
    assert stream[..|stream|] == stream;
  }

  lemma InsertAllSnoc(stream: seq<int>, x: int)
    ensures InsertAll(stream + [x]) == Inserted(InsertAll(stream), x)
  {
    assert (stream + [x])[..|stream|] == stream;
  }

  /** Inserting a whole stream sorts it. */
  lemma {:induction false} InsertAllSorted(stream: seq<int>)
    ensures Sorted(InsertAll(stream))
    decreases |stream|
  {
    if |stream| > 0 {
      var n := |stream| - 1;
      InsertAllSorted(stream[..n]);
      InsertedSorted(InsertAll(stream[..n]), stream[n]);
    }
  }

  /** The final list holds exactly the numbers of the stream. */
  lemma {:induction false} InsertAllElements(stream: seq<int>)
    ensures multiset(InsertAll(stream)) == multiset(stream)
    decreases |stream|
  {
    if |stream| > 0 {
      var n := |stream| - 1;
      InsertAllElements(stream[..n]);
      InsertedElements(InsertAll(stream[..n]), stream[n]);
      assert stream == stream[..n] + [stream[n]];
    }
  }

  /** Each insertion of the script. */
  lemma ScriptSteps()
    ensures Inserted([], 5) == [5]
    ensures Inserted([5], 3) == [3, 5]
    ensures Inserted([3, 5], 8) == [3, 5, 8]
    ensures Inserted([3, 5, 8], 1) == [1, 3, 5, 8]
    ensures Inserted([1, 3, 5, 8], 2) == [1, 2, 3, 5, 8]
    ensures Inserted([1, 2, 3, 5, 8], 7) == [1, 2, 3, 5, 7, 8]
  {
  }

  /** The script: 5, 3, 8, 1, 2, 7 inserted in turn into an empty list
      leave it as 1, 2, 3, 5, 7, 8. */
  method Script() returns (list: IntList)
    ensures list.items == [1, 2, 3, 5, 7, 8]
  {
    ScriptSteps();
    list := new IntList();
    InsertNumber(5, list);
    InsertNumber(3, list);
    InsertNumber(8, list);
    InsertNumber(1, list);
    InsertNumber(2, list);
    InsertNumber(7, list);
  }

}
