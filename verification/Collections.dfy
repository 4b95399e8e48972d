/** Lists and sets: what a list contains, and visiting a set in no particular order. */
module Collections {
  /** The elements of a list. */
  function SetOf<T>(s: seq<T>): (r: set<T>)
    ensures |s| == 0 ==> r == {}
  {
    set x | x in s
  }

  lemma SetOfAppend<T>(s: seq<T>, x: T)
    ensures SetOf(s + [x]) == SetOf(s) + {x}
  {
  }

  lemma {:induction false} DistinctLength<T>(s: seq<T>)
    requires forall i, j :: 0 <= i < j < |s| ==> s[i] != s[j]
    ensures |SetOf(s)| == |s|
    decreases |s|
  {
    if s != [] {
      var n := |s| - 1;
      DistinctLength(s[..n]);
      SetOfAppend(s[..n], s[n]);
      assert s == s[..n] + [s[n]];
      assert s[n] !in SetOf(s[..n]) by {
        forall i | 0 <= i < n ensures s[..n][i] != s[n] {}
      }
    }
  }

  /** The next element of a collection that is visited in no particular order. */
  method Pick<T>(s: set<T>) returns (x: T)
    requires s != {}
    ensures x in s
  {
    x :| x in s;
  }

  /** Where a listed element stands. */
  lemma {:induction false} IndexOf<T>(list: seq<T>, x: T) returns (n: nat)
    requires x in list
    ensures n < |list| && list[n] == x
  {
    n :| n < |list| && list[n] == x;
  }
}
