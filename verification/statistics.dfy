/** Order statistics over sequences of reals: the sorted copy, minimum, maximum
    and the median as numpy computes it (middle element, or the mean of the two
    middle elements of an even-length sequence). */
module Statistics {

  predicate Sorted(s: seq<real>) {
    forall i, j :: 0 <= i < j < |s| ==> s[i] <= s[j]
  }

  /** Smallest element */
  function SeqMin(s: seq<real>): (r: real)
    requires |s| > 0
    ensures forall i :: 0 <= i < |s| ==> r <= s[i]
  {
    if |s| == 1 then s[0]
    else
      var m := SeqMin(s[1..]);
      assert forall i :: 1 <= i < |s| ==> s[i] == s[1..][i - 1];
      if s[0] <= m then s[0] else m
  }

  /** Largest element */
  function SeqMax(s: seq<real>): (r: real)
    requires |s| > 0
    ensures forall i :: 0 <= i < |s| ==> s[i] <= r
  {
    if |s| == 1 then s[0]
    else
      var m := SeqMax(s[1..]);
      assert forall i :: 1 <= i < |s| ==> s[i] == s[1..][i - 1];
      if s[0] >= m then s[0] else m
  }

  /** The minimum is attained */
  lemma {:induction false} SeqMinIsElement(s: seq<real>)
    requires |s| > 0
    ensures SeqMin(s) in s
  {
    if |s| > 1 {
      SeqMinIsElement(s[1..]);
      assert SeqMin(s[1..]) in s;
    }
  }

  /** The maximum is attained */
  lemma {:induction false} SeqMaxIsElement(s: seq<real>)
    requires |s| > 0
    ensures SeqMax(s) in s
  {
    if |s| > 1 {
      SeqMaxIsElement(s[1..]);
      assert SeqMax(s[1..]) in s;
    }
  }

  /** `x` placed into a sorted sequence, before the first element not smaller */
  function Insert(x: real, s: seq<real>): (r: seq<real>)
    ensures |r| == |s| + 1
    ensures multiset(r) == multiset(s) + multiset{x}
  {
    if |s| == 0 then [x]
    else if x <= s[0] then [x] + s
    else
      var t := Insert(x, s[1..]);
      ConsKeepsAdded(s, t, x);
      [s[0]] + t
  }

  /** Putting the same element in front of a sequence and of that sequence plus x
      keeps the difference x */
  lemma ConsKeepsAdded(s: seq<real>, t: seq<real>, x: real)
    requires |s| > 0
    requires multiset(t) == multiset(s[1..]) + multiset{x}
    ensures multiset([s[0]] + t) == multiset(s) + multiset{x}
  {
    assert s == [s[0]] + s[1..];
    calc {
      multiset([s[0]] + t);
      multiset{s[0]} + multiset(t);
      multiset{s[0]} + multiset(s[1..]) + multiset{x};
      multiset(s) + multiset{x};
    }
  }

  /** Insertion keeps a sorted sequence sorted, and nothing falls below both x and
      the old head */
  lemma {:induction false} InsertSorted(x: real, s: seq<real>)
    requires Sorted(s)
    ensures Sorted(Insert(x, s))
    ensures forall i :: 0 <= i < |s| + 1 ==> x <= Insert(x, s)[i] || (|s| > 0 && s[0] <= Insert(x, s)[i])
  {
    if |s| > 0 && x > s[0] {
      var t := Insert(x, s[1..]);
      InsertSorted(x, s[1..]);
      HeadBelowRest(s[0], x, s[1..], t);
      assert Insert(x, s) == [s[0]] + t;
    } else if |s| > 0 {
      assert Insert(x, s) == [x] + s;
    }
  }

  /** A sorted sequence keeps sorted when an element no larger than any of its own is
      placed in front */
  lemma HeadBelowRest(a: real, x: real, s: seq<real>, t: seq<real>)
    requires Sorted(t) && a < x
    requires |s| > 0 ==> a <= s[0]
    requires forall i :: 0 <= i < |t| ==> x <= t[i] || (|s| > 0 && s[0] <= t[i])
    ensures Sorted([a] + t)
    ensures forall i :: 0 <= i < |t| + 1 ==> a <= ([a] + t)[i]
  {
  }

  /** A sorted permutation */
  function Sort(s: seq<real>): (r: seq<real>)
    ensures |r| == |s|
    ensures Sorted(r)
    ensures multiset(r) == multiset(s)
  {
    if |s| == 0 then []
    else
      assert s == [s[0]] + s[1..];
      InsertSorted(s[0], Sort(s[1..]));
      Insert(s[0], Sort(s[1..]))
  }

  /** The middle element of the sorted copy, or the mean of the two middle ones */
  function Median(s: seq<real>): real
    requires |s| > 0
  {
    var t := Sort(s);
    var n := |t|;
    if n % 2 == 1 then t[n / 2] else (t[n / 2 - 1] + t[n / 2]) / 2.0
  }

  /** The median is an entry of the input for an odd length, and the mean of two
      entries of the input for an even one */
  lemma MedianOfInputEntries(s: seq<real>)
    requires |s| > 0
    ensures |s| % 2 == 1 ==> Median(s) in s
    ensures exists i, j :: 0 <= i < |s| && 0 <= j < |s| && 2.0 * Median(s) == s[i] + s[j]
  {
    if |s| % 2 == 1 {
      var i := OddMedianEntry(s);
      assert 2.0 * Median(s) == s[i] + s[i];
    } else {
      var i, j := EvenMedianEntries(s);
    }
  }

  /** For an odd length, where the median sits in the input */
  lemma OddMedianEntry(s: seq<real>) returns (i: nat)
    requires |s| % 2 == 1
    ensures i < |s| && Median(s) == s[i]
  {
    i := PermutationEntry(s, Sort(s), |s| / 2);
    assert Median(s) == Sort(s)[|s| / 2] by {
      MedianOfSorted(s);
    }
  }

  /** For an even length, where the two middle entries of the sorted copy sit in the input */
  lemma EvenMedianEntries(s: seq<real>) returns (i: nat, j: nat)
    requires |s| > 0 && |s| % 2 == 0
    ensures i < |s| && j < |s| && 2.0 * Median(s) == s[i] + s[j]
  {
    var t, h := Sort(s), |s| / 2;
    assert 1 <= h && h * 2 == |s|;
    i := PermutationEntry(s, t, h - 1);
    j := PermutationEntry(s, t, h);
    assert Median(s) == (t[h - 1] + t[h]) / 2.0 by {
      MedianOfSorted(s);
    }
  }

  /** Where an entry of a permutation sits in the original */
  lemma PermutationEntry(s: seq<real>, t: seq<real>, k: nat) returns (i: nat)
    requires multiset(t) == multiset(s) && k < |t|
    ensures i < |s| && s[i] == t[k]
  {
    assert t[k] in multiset(t);
    i :| i < |s| && s[i] == t[k];
  }

  /** The median in terms of the sorted copy */
  lemma MedianOfSorted(s: seq<real>)
    requires |s| > 0
    ensures var t := Sort(s);
            && |t| == |s|
            && Median(s) == if |t| % 2 == 1 then t[|t| / 2] else (t[|t| / 2 - 1] + t[|t| / 2]) / 2.0
  {
    var t := Sort(s);
    assert |t| == |s|;
  }

  /** The median lies between the smallest and the largest element */
  lemma MedianWithinBounds(s: seq<real>)
    requires |s| > 0
    ensures SeqMin(s) <= Median(s) <= SeqMax(s)
  {
    MedianOfSorted(s);
    SortedWithinBounds(s, Sort(s));
  }

  /** Every element of a permutation lies between the extremes of the original */
  lemma SortedWithinBounds(s: seq<real>, t: seq<real>)
    requires |s| > 0 && multiset(t) == multiset(s)
    ensures forall i :: 0 <= i < |t| ==> SeqMin(s) <= t[i] <= SeqMax(s)
  {
    forall i | 0 <= i < |t|
      ensures SeqMin(s) <= t[i] <= SeqMax(s)
    {
      assert t[i] in multiset(t);
      assert t[i] in s;
    }
  }

  /** No value occurs in a sequence more often than the sequence is long */
  lemma {:induction false} OccurrencesAtMostLength(s: seq<real>, c: real)
    ensures multiset(s)[c] <= |s|
  {
    if |s| > 0 {
      assert s == [s[0]] + s[1..];
      OccurrencesAtMostLength(s[1..], c);
    }
  }

  /** Occurrences split over a cut of the sequence */
  lemma OccurrencesSplit(s: seq<real>, j: nat, c: real)
    requires j <= |s|
    ensures multiset(s)[c] == multiset(s[..j])[c] + multiset(s[j..])[c]
  {
    assert s == s[..j] + s[j..];
  }

  /** In a sorted sequence, a value occurring more often than `|t| - 1 - m` times
      and more often than `m` times sits at position `m` */
  lemma SortedMajorityAt(t: seq<real>, c: real, m: nat)
    requires Sorted(t) && m < |t|
    requires multiset(t)[c] > m && multiset(t)[c] > |t| - 1 - m
    ensures t[m] == c
  {
    if t[m] < c {
      CountAfterSmaller(t, c, m);
    } else if t[m] > c {
      CountBeforeLarger(t, c, m);
    }
  }

  /** A value above position m of a sorted sequence occurs only after it */
  lemma CountAfterSmaller(t: seq<real>, c: real, m: nat)
    requires Sorted(t) && m < |t| && t[m] < c
    ensures multiset(t)[c] <= |t| - 1 - m
  {
    OccurrencesSplit(t, m + 1, c);
    assert c !in t[..m + 1];
    OccurrencesAtMostLength(t[m + 1..], c);
  }

  /** A value below position m of a sorted sequence occurs only before it */
  lemma CountBeforeLarger(t: seq<real>, c: real, m: nat)
    requires Sorted(t) && m < |t| && t[m] > c
    ensures multiset(t)[c] <= m
  {
    OccurrencesSplit(t, m, c);
    assert c !in t[m..];
    OccurrencesAtMostLength(t[..m], c);
  }

  /** A value held by more than half of the elements is the median */
  lemma MedianOfMajority(s: seq<real>, c: real)
    requires |s| > 0
    requires 2 * multiset(s)[c] > |s|
    ensures Median(s) == c
  {
    var t := Sort(s);
    var n := |t|;
    MedianOfSorted(s);
    assert multiset(t)[c] == multiset(s)[c];
    if n % 2 == 1 {
      SortedMajorityAt(t, c, n / 2);
    } else {
      SortedMajorityAt(t, c, n / 2 - 1);
      SortedMajorityAt(t, c, n / 2);
    }
  }

  /** The median of a constant sequence is that constant */
  lemma MedianOfConstant(s: seq<real>, c: real)
    requires |s| > 0
    requires forall i :: 0 <= i < |s| ==> s[i] == c
    ensures Median(s) == c
  {
    assert multiset(s)[c] == |s| by {
      ConstantOccurrences(s, c);
    }
    MedianOfMajority(s, c);
  }

  lemma {:induction false} ConstantOccurrences(s: seq<real>, c: real)
    requires forall i :: 0 <= i < |s| ==> s[i] == c
    ensures multiset(s)[c] == |s|
  {
    if |s| > 0 {
      assert s == [s[0]] + s[1..];
      ConstantOccurrences(s[1..], c);
    }
  }
}
