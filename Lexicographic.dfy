/**
 * The order JavaScript's `Array.prototype.sort()` uses when it is called
 * without a comparator on an array of strings: strings are compared
 * character by character, and a proper prefix sorts before the longer
 * string. The sort itself is a library call in the source; it is modelled
 * here as insertion sort, a function whose contract is "sorted, and a
 * permutation of the input", which is all the caller relies on.
 */
module Lexicographic {

  /** `a` sorts at or before `b`. */
  predicate LexLe(a: string, b: string)
  {
    |a| == 0 || (|b| > 0 && (a[0] < b[0] || (a[0] == b[0] && LexLe(a[1..], b[1..]))))
  }

  lemma {:induction false} LexLeReflexive(a: string)
    ensures LexLe(a, a)
  {
    if |a| > 0 {
      LexLeReflexive(a[1..]);
    }
  }

  lemma {:induction false} LexLeTotal(a: string, b: string)
    ensures LexLe(a, b) || LexLe(b, a)
  {
    if |a| > 0 && |b| > 0 && a[0] == b[0] {
      LexLeTotal(a[1..], b[1..]);
    }
  }

  lemma {:induction false} LexLeAntisymmetric(a: string, b: string)
    requires LexLe(a, b) && LexLe(b, a)
    ensures a == b
  {
    if |a| > 0 && |b| > 0 {
      LexLeAntisymmetric(a[1..], b[1..]);
      assert a == [a[0]] + a[1..] && b == [b[0]] + b[1..];
    }
  }

  lemma {:induction false} LexLeTransitive(a: string, b: string, c: string)
    requires LexLe(a, b) && LexLe(b, c)
    ensures LexLe(a, c)
  {
    if |a| > 0 && a[0] == b[0] && b[0] == c[0] {
      LexLeTransitive(a[1..], b[1..], c[1..]);
    }
  }

  /** Every string sorts at or after its neighbour on the left. */
  predicate Sorted(s: seq<string>)
  {
    forall i :: 0 < i < |s| ==> LexLe(s[i - 1], s[i])
  }

  lemma SortedTail(s: seq<string>)
    requires Sorted(s) && |s| > 0
    ensures Sorted(s[1..])
  {
    forall i | 0 < i < |s| - 1
      ensures LexLe(s[1..][i - 1], s[1..][i])
    {
      assert LexLe(s[i], s[i + 1]);
    }
  }

  /** The first string of a sorted sequence sorts at or before all of them. */
  lemma {:induction false} SortedHeadIsLeast(s: seq<string>, x: string)
    requires Sorted(s) && x in s
    ensures LexLe(s[0], x)
  {
    if x == s[0] {
      LexLeReflexive(x);
    } else {
      assert x in s[1..];
      SortedTail(s);
      SortedHeadIsLeast(s[1..], x);
      LexLeTransitive(s[0], s[1], x);
    }
  }

  /**
   * Two sorted arrangements of the same strings are the same sequence:
   * sorting determines its output from the multiset of its input alone.
   */
  lemma {:induction false} SortedUnique(a: seq<string>, b: seq<string>)
    requires Sorted(a) && Sorted(b) && multiset(a) == multiset(b)
    ensures a == b
  {
    if |a| > 0 {
      assert |b| == |multiset(b)| == |a|;
      assert a == [a[0]] + a[1..] && b == [b[0]] + b[1..];
      assert a[0] in multiset(b) && b[0] in multiset(a);
      SortedHeadIsLeast(a, b[0]);
      SortedHeadIsLeast(b, a[0]);
      LexLeAntisymmetric(a[0], b[0]);
      assert multiset(a[1..]) == multiset(b[1..]) by {
        calc {
          multiset(a[1..]);
          multiset([a[0]] + a[1..]) - multiset{a[0]};
          multiset(b) - multiset{b[0]};
          multiset([b[0]] + b[1..]) - multiset{b[0]};
          multiset(b[1..]);
        }
      }
      SortedTail(a);
      SortedTail(b);
      SortedUnique(a[1..], b[1..]);
    } else {
      assert |b| == |multiset(b)| == 0;
    }
  }

  /** Puts `x` into the sorted sequence `s` before the first string it does not sort after. */
  function Insert(x: string, s: seq<string>): (r: seq<string>)
    requires Sorted(s)
    ensures Sorted(r)
    ensures multiset(r) == multiset(s) + multiset{x}
    ensures r[0] == x || (|s| > 0 && r[0] == s[0])
  {
    if |s| == 0 then [x]
    else if LexLe(x, s[0]) then [x] + s
    else
      SortedTail(s);
      LexLeTotal(x, s[0]);
      var rest := Insert(x, s[1..]);
      assert s == [s[0]] + s[1..];
      [s[0]] + rest
  }

  /** The strings of `s`, rearranged into sorted order. */
  function Sort(s: seq<string>): (r: seq<string>)
    ensures Sorted(r)
    ensures multiset(r) == multiset(s)
  {
    if |s| == 0 then []
    else
      assert s == [s[0]] + s[1..];
      Insert(s[0], Sort(s[1..]))
  }

  lemma SortLength(s: seq<string>)
    ensures |Sort(s)| == |s|
  {
    assert |Sort(s)| == |multiset(Sort(s))| == |multiset(s)| == |s|;
  }
}
