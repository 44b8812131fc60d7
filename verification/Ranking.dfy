/** The in-place insertion sort by score that path and provider selection share (manager.go, api.go). */
module Ranking {
  datatype Scored<+T> = Scored(item: T, score: real)

  /** `x` goes behind everything that scores at least as high. */
  function Insert<T>(s: seq<Scored<T>>, x: Scored<T>): (r: seq<Scored<T>>)
    ensures |r| == |s| + 1
  {
    if s == [] || s[|s| - 1].score >= x.score then s + [x]
    else Insert(s[..|s| - 1], x) + [s[|s| - 1]]
  }

  function SortDesc<T>(s: seq<Scored<T>>): (r: seq<Scored<T>>)
    ensures |r| == |s|
  {
    if s == [] then [] else Insert(SortDesc(s[..|s| - 1]), s[|s| - 1])
  }

  lemma {:induction false} InsertSkips<T>(s: seq<Scored<T>>, x: Scored<T>, j: nat)
    requires j <= |s| && forall k | j <= k < |s| :: s[k].score < x.score
    ensures Insert(s, x) == Insert(s[..j], x) + s[j..]
    decreases |s|
  {
    if j == |s| {
      assert s[..j] == s;
    } else {
      var f := s[..|s| - 1];
      InsertSkips(f, x, j);
      assert f[..j] == s[..j] && s[j..] == f[j..] + [s[|s| - 1]];
    }
  }

  method InsertionSort<T>(a: array<Scored<T>>)
    modifies a
    ensures a[..] == SortDesc(old(a[..]))
  {
    ghost var input := a[..];
    for i := 0 to a.Length
      invariant a[..i] == SortDesc(input[..i]) && a[i..] == input[i..]
    {
      SinkIn(a, i);
      assert input[..i + 1][..i] == input[..i];
    }
    assert a[..a.Length] == a[..] && input[..a.Length] == input;
  }

  /** The inner loop: element `i` moves forward past everything that scores less. */
  method SinkIn<T>(a: array<Scored<T>>, i: nat)
    requires i < a.Length
    modifies a
    ensures a[..i + 1] == Insert(old(a[..i]), old(a[i])) && a[i + 1..] == old(a[i + 1..])
  {
    ghost var s, x := a[..i], a[i];
    var j := i;
    while j > 0 && a[j].score > a[j - 1].score
      invariant 0 <= j <= i && a[j] == x
      invariant forall k | 0 <= k < j :: a[k] == s[k]
      invariant forall k | j < k <= i :: a[k] == s[k - 1]
      invariant forall k | i < k < a.Length :: a[k] == old(a[k])
      invariant forall k | j <= k < i :: s[k].score < x.score
    {
      a[j], a[j - 1] := a[j - 1], a[j];
      j := j - 1;
    }
    SunkIn(s, x, a[..i + 1], j);
  }

  lemma SunkIn<T>(s: seq<Scored<T>>, x: Scored<T>, t: seq<Scored<T>>, j: nat)
    requires j <= |s| && |t| == |s| + 1 && t[j] == x
    requires forall k | 0 <= k < j :: t[k] == s[k]
    requires forall k | j < k <= |s| :: t[k] == s[k - 1]
    requires forall k | j <= k < |s| :: s[k].score < x.score
    requires j > 0 ==> s[j - 1].score >= x.score
    ensures t == Insert(s, x)
  {
    InsertSkips(s, x, j);
    assert t == s[..j] + [x] + s[j..];
  }

  ghost predicate Descending<T>(s: seq<Scored<T>>) {
    forall i, j | 0 <= i < j < |s| :: s[i].score >= s[j].score
  }

  lemma {:induction false} InsertKeeps<T>(s: seq<Scored<T>>, x: Scored<T>)
    ensures multiset(Insert(s, x)) == multiset(s) + multiset{x}
    ensures forall i | 0 <= i <= |s| :: Insert(s, x)[i] == x || Insert(s, x)[i] in s
    decreases |s|
  {
    if s != [] && s[|s| - 1].score < x.score {
      InsertKeeps(s[..|s| - 1], x);
      assert s == s[..|s| - 1] + [s[|s| - 1]];
    }
  }

  lemma {:induction false} InsertSorts<T>(s: seq<Scored<T>>, x: Scored<T>)
    requires Descending(s)
    ensures Descending(Insert(s, x))
    decreases |s|
  {
    if s != [] && s[|s| - 1].score < x.score {
      var f, l := s[..|s| - 1], s[|s| - 1];
      InsertSorts(f, x);
      InsertKeeps(f, x);
      var r := Insert(f, x);
      forall i | 0 <= i < |r| ensures r[i].score >= l.score {
        if r[i] != x {
          var k :| 0 <= k < |f| && f[k] == r[i];
          assert s[k] == f[k];
        }
      }
    }
  }

  /** The sort orders by descending score and loses nothing. */
  lemma {:induction false} SortSorts<T>(s: seq<Scored<T>>)
    ensures Descending(SortDesc(s)) && multiset(SortDesc(s)) == multiset(s)
    decreases |s|
  {
    if s != [] {
      SortSorts(s[..|s| - 1]);
      InsertSorts(SortDesc(s[..|s| - 1]), s[|s| - 1]);
      InsertKeeps(SortDesc(s[..|s| - 1]), s[|s| - 1]);
      assert s == s[..|s| - 1] + [s[|s| - 1]];
    }
  }

  /** By descending score, ties by ascending number. */
  ghost predicate Lexicographic(s: seq<Scored<nat>>) {
    forall i, j | 0 <= i < j < |s| ::
      s[i].score > s[j].score || (s[i].score == s[j].score && s[i].item < s[j].item)
  }

  lemma {:induction false} InsertLexicographic(s: seq<Scored<nat>>, x: Scored<nat>)
    requires Lexicographic(s) && forall i | 0 <= i < |s| :: s[i].item < x.item
    ensures Lexicographic(Insert(s, x))
    decreases |s|
  {
    if s != [] && s[|s| - 1].score < x.score {
      var f, l := s[..|s| - 1], s[|s| - 1];
      InsertLexicographic(f, x);
      InsertKeeps(f, x);
      forall i | 0 <= i < |s|
        ensures var e := Insert(f, x)[i]; e.score > l.score || (e.score == l.score && e.item < l.item)
      {
        var e := Insert(f, x)[i];
        if e != x {
          var k :| 0 <= k < |f| && f[k] == e;
          assert s[k] == e;
        }
      }
    }
  }

  /** The sort is stable: elements numbered in order end up ordered by score, ties in their original order. */
  lemma {:induction false} SortStable(s: seq<Scored<nat>>)
    requires forall i, j | 0 <= i < j < |s| :: s[i].item < s[j].item
    ensures Lexicographic(SortDesc<nat>(s))
    decreases |s|
  {
    if s != [] {
      var f: seq<Scored<nat>>, x := s[..|s| - 1], s[|s| - 1];
      SortStable(f);
      SortSorts<nat>(f);
      forall i | 0 <= i < |f| ensures SortDesc<nat>(f)[i].item < x.item {
        assert SortDesc<nat>(f)[i] in multiset(f);
        var k :| 0 <= k < |f| && f[k] == SortDesc<nat>(f)[i];
        assert s[k] == f[k];
      }
      InsertLexicographic(SortDesc<nat>(f), x);
    }
  }
}
