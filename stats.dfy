/** The two group statistics of the imputer: a mode (a most frequent value) and a median. */
module Stats {

  /** Index of the first most frequent element of `s`, scanning left to right from `i` with
      `best` the first most frequent element of `s[..i]`. */
  function ModeIndex<T(==)>(s: seq<T>, i: nat, best: nat): (k: nat)
    requires best < i <= |s|
    requires forall j :: 0 <= j < i ==> multiset(s)[s[j]] <= multiset(s)[s[best]]
    requires forall j :: 0 <= j < best ==> multiset(s)[s[j]] < multiset(s)[s[best]]
    ensures k < |s|
    ensures forall j :: 0 <= j < |s| ==> multiset(s)[s[j]] <= multiset(s)[s[k]]
    ensures forall j :: 0 <= j < k ==> multiset(s)[s[j]] < multiset(s)[s[k]]
    decreases |s| - i
  {
    if i == |s| then best
    else ModeIndex(s, i + 1, if multiset(s)[s[i]] > multiset(s)[s[best]] then i else best)
  }

  /** A mode of a non-empty sequence: a value occurring at least as often as any other; among
      equally frequent values, the one that occurs first. */
  function Mode<T(==)>(s: seq<T>): (m: T)
    requires |s| > 0
    ensures m in s
    ensures forall x :: x in s ==> multiset(s)[x] <= multiset(s)[m]
  {
    var k := ModeIndex(s, 1, 0);
    assert forall x :: x in s ==> exists j :: 0 <= j < |s| && s[j] == x;
    s[k]
  }

  ghost predicate Sorted(s: seq<real>)
  {
    forall i, j :: 0 <= i < j < |s| ==> s[i] <= s[j]
  }

  /** `x` placed into the ascending sequence `s`. */
  function Insert(x: real, s: seq<real>): (r: seq<real>)
    requires Sorted(s)
    ensures Sorted(r)
    ensures |r| == |s| + 1
    ensures r[0] == x || (|s| > 0 && r[0] == s[0])
    ensures multiset(r) == multiset(s) + multiset{x}
  {
    if |s| == 0 then [x]
    else if x <= s[0] then [x] + s
    else
      var rest := Insert(x, s[1..]);
      assert s == [s[0]] + s[1..];
      assert s[0] <= rest[0];
      [s[0]] + rest
  }

  /** The values of `s` in ascending order. */
  function Sort(s: seq<real>): (r: seq<real>)
    ensures Sorted(r)
    ensures |r| == |s|
    ensures multiset(r) == multiset(s)
  {
    if |s| == 0 then []
    else
      assert s == [s[0]] + s[1..];
      Insert(s[0], Sort(s[1..]))
  }

  /** pandas' `median()`: the middle value of the sorted values, or the mean of the two middle
      values when there is an even number of them. */
  function Median(s: seq<real>): real
    requires |s| > 0
  {
    Middle(Sort(s))
  }

  /** The middle of a sorted sequence: its middle value, or the mean of its two middle values. */
  function Middle(r: seq<real>): real
    requires |r| > 0
  {
    var n := |r|;
    if n % 2 == 1 then r[n / 2] else (r[n / 2 - 1] + r[n / 2]) / 2.0
  }

  /** The median lies between the least and the greatest value: some value is at most the
      median and some value is at least the median. */
  lemma MedianBounds(s: seq<real>)
    requires |s| > 0
    ensures exists i :: 0 <= i < |s| && s[i] <= Median(s)
    ensures exists j :: 0 <= j < |s| && Median(s) <= s[j]
  {
    var r := Sort(s);
    var n := |r|;
    MiddleBetween(r);
    SortedFrom(s, (n - 1) / 2);
    SortedFrom(s, n / 2);
    var i :| 0 <= i < |s| && s[i] == r[(n - 1) / 2];
    var j :| 0 <= j < |s| && s[j] == r[n / 2];
  }

  /** The middle of a sorted sequence lies between its two middle values. */
  lemma MiddleBetween(r: seq<real>)
    requires |r| > 0 && Sorted(r)
    ensures r[(|r| - 1) / 2] <= Middle(r) <= r[|r| / 2]
  {
    var n := |r|;
    var h := n / 2;
    if n % 2 == 1 {
      assert (n - 1) / 2 == h;
    } else {
      assert (n - 1) / 2 == h - 1;
      assert r[h - 1] <= r[h];
    }
  }

  /** Every value of the sorted sequence comes from the input. */
  lemma SortedFrom(s: seq<real>, k: nat)
    requires k < |s|
    ensures exists i :: 0 <= i < |s| && s[i] == Sort(s)[k]
  {
    var r := Sort(s);
    assert r[k] in multiset(r);
    assert r[k] in s;
  }

  /** Sorting a sequence that is already in ascending order leaves it as it is. */
  lemma {:induction false} SortSorted(s: seq<real>)
    requires Sorted(s)
    ensures Sort(s) == s
  {
    if |s| > 0 {
      var t := s[1..];
      SortedTail(s);
      calc {
        Sort(s);
        Insert(s[0], Sort(t));
        { SortSorted(t); }
        Insert(s[0], t);
        { InsertFront(s[0], t); }
        [s[0]] + t;
        s;
      }
    }
  }

  lemma SortedTail(s: seq<real>)
    requires Sorted(s) && |s| > 0
    ensures Sorted(s[1..]) && (|s| > 1 ==> s[0] <= s[1..][0])
  {
    var t := s[1..];
    forall i, j | 0 <= i < j < |t| ensures t[i] <= t[j] {
      assert t[i] == s[i + 1] && t[j] == s[j + 1];
    }
  }

  lemma InsertFront(x: real, t: seq<real>)
    requires Sorted(t) && (|t| == 0 || x <= t[0])
    ensures Insert(x, t) == [x] + t
  {
  }

  /** On values already in ascending order the median is the middle value, or the mean of the two
      middle values. */
  lemma MedianOfSorted(s: seq<real>)
    requires |s| > 0 && Sorted(s)
    ensures |s| % 2 == 1 ==> Median(s) == s[|s| / 2]
    ensures |s| % 2 == 0 ==> Median(s) == (s[|s| / 2 - 1] + s[|s| / 2]) / 2.0
  {
    SortSorted(s);
    assert Median(s) == Middle(s);
  }
}
