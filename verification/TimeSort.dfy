/** Sorting stamped values by time, as `std::sort` with a timestamp comparison does. */
module TimeSort {

  datatype Stamped<T> = Stamped(time: nat, value: T)

  ghost predicate Sorted<T>(s: seq<Stamped<T>>)
  {
    forall i, j | 0 <= i < j < |s| :: s[i].time <= s[j].time
  }

  ghost predicate Rising<T>(s: seq<Stamped<T>>)
  {
    forall i, j | 0 <= i < j < |s| :: s[i].time < s[j].time
  }

  function Place<T>(x: Stamped<T>, s: seq<Stamped<T>>): seq<Stamped<T>>
  {
    if s == [] || x.time <= s[0].time then [x] + s else [s[0]] + Place(x, s[1..])
  }

  function SortByTime<T>(s: seq<Stamped<T>>): seq<Stamped<T>>
  {
    if s == [] then [] else Place(s[0], SortByTime(s[1..]))
  }

  lemma {:induction false} PlaceKeepsAll<T>(x: Stamped<T>, s: seq<Stamped<T>>)
    ensures multiset(Place(x, s)) == multiset{x} + multiset(s)
  {
    if s != [] && x.time > s[0].time {
      PlaceKeepsAll(x, s[1..]);
      assert s == [s[0]] + s[1..];
    }
  }

  lemma {:induction false} PlaceSorts<T>(x: Stamped<T>, s: seq<Stamped<T>>)
    requires Sorted(s)
    ensures Sorted(Place(x, s))
    ensures forall i | 0 <= i < |Place(x, s)| ::
              x.time <= Place(x, s)[i].time || (s != [] && s[0].time <= Place(x, s)[i].time)
  {
    if s != [] && x.time > s[0].time {
      PlaceSorts(x, s[1..]);
    }
  }

  lemma {:induction false} SortFacts<T>(s: seq<Stamped<T>>)
    ensures Sorted(SortByTime(s)) && multiset(SortByTime(s)) == multiset(s)
  {
    if s != [] {
      SortFacts(s[1..]);
      PlaceSorts(s[0], SortByTime(s[1..]));
      PlaceKeepsAll(s[0], SortByTime(s[1..]));
      assert s == [s[0]] + s[1..];
    }
  }

  lemma InBoth<T>(a: seq<Stamped<T>>, b: seq<Stamped<T>>, x: Stamped<T>)
    requires multiset(a) == multiset(b) && x in a
    ensures x in b
  {
    assert x in multiset(a);
  }

  lemma SameLast<T>(a: seq<Stamped<T>>, b: seq<Stamped<T>>)
    requires Sorted(a) && Rising(b) && multiset(a) == multiset(b) && a != [] && b != []
    ensures a[|a| - 1] == b[|b| - 1]
  {
    var x, y := a[|a| - 1], b[|b| - 1];
    InBoth(a, b, x);
    InBoth(b, a, y);
    var i :| 0 <= i < |b| && b[i] == x;
    var j :| 0 <= j < |a| && a[j] == y;
    assert y.time <= x.time;
  }

  lemma SplitLast<T>(s: seq<T>)
    requires s != []
    ensures s == s[..|s| - 1] + [s[|s| - 1]]
  {
  }

  lemma DropLast<T>(s: seq<T>)
    requires s != []
    ensures multiset(s[..|s| - 1]) == multiset(s) - multiset{s[|s| - 1]}
  {
    assert s == s[..|s| - 1] + [s[|s| - 1]];
  }

  lemma PrefixesOrdered<T>(a: seq<Stamped<T>>, b: seq<Stamped<T>>, k: nat)
    requires Sorted(a) && Rising(b) && k <= |a| == |b|
    ensures Sorted(a[..k]) && Rising(b[..k])
  {
  }

  lemma SameSize<T>(a: seq<T>, b: seq<T>)
    requires multiset(a) == multiset(b)
    ensures |a| == |b|
  {
    assert |a| == |multiset(a)| == |multiset(b)| == |b|;
  }

  /** The order in which rising stamps come in does not matter once they are sorted. */
  lemma {:induction false} SortedIsUnique<T>(a: seq<Stamped<T>>, b: seq<Stamped<T>>)
    requires Sorted(a) && Rising(b) && multiset(a) == multiset(b)
    ensures a == b
    decreases |b|
  {
    hide Sorted, Rising;
    SameSize(a, b);
    if b != [] {
      var k := |b| - 1;
      SameLast(a, b);
      DropLast(a);
      DropLast(b);
      PrefixesOrdered(a, b, k);
      SortedIsUnique(a[..k], b[..k]);
      SplitLast(a);
      SplitLast(b);
    }
  }

  /** What `std::sort` promises with a timestamp comparison: nothing about equal timestamps. */
  ghost predicate Arranges<T>(arranged: seq<Stamped<T>>, s: seq<Stamped<T>>)
  {
    Sorted(arranged) && multiset(arranged) == multiset(s)
  }

  method StdSort<T>(s: seq<Stamped<T>>) returns (arranged: seq<Stamped<T>>)
    ensures Arranges(arranged, s)
  {
    arranged := SortByTime(s);
    SortFacts(s);
  }

  /** Rising stamps have one arrangement, the order they were made in. */
  lemma SortRestores<T>(arranged: seq<Stamped<T>>, shuffled: seq<Stamped<T>>, original: seq<Stamped<T>>)
    requires Rising(original) && multiset(shuffled) == multiset(original) && Arranges(arranged, shuffled)
    ensures arranged == original
  {
    SortedIsUnique(arranged, original);
  }
}
