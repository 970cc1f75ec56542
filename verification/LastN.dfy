/** The last n event sequences of a set, and why keepers may each cut their own tail first. */
module LastN {

  /** `EventSequence`: time, client and index, compared in that order. */
  datatype EventSequence = EventSequence(time: nat, client: nat, index: nat)

  predicate Less(a: EventSequence, b: EventSequence)
  {
    a.time < b.time ||
    (a.time == b.time && (a.client < b.client || (a.client == b.client && a.index < b.index)))
  }

  function Above(s: set<EventSequence>, x: EventSequence): set<EventSequence>
  {
    set y | y in s && Less(x, y)
  }

  /** The members with fewer than n members above them. */
  function Last(s: set<EventSequence>, n: nat): set<EventSequence>
  {
    set x | x in s && |Above(s, x)| < n
  }

  ghost predicate IsLargest(s: set<EventSequence>, m: EventSequence)
  {
    m in s && forall y | y in s && y != m :: Less(y, m)
  }

  lemma {:induction false} HasLargest(s: set<EventSequence>) returns (m: EventSequence)
    requires s != {}
    ensures IsLargest(s, m)
    decreases |s|
  {
    var x :| x in s;
    m := x;
    if s != {x} {
      var rest := s - {x};
      assert s == rest + {x} && rest != {};
      var k := HasLargest(rest);
      m := if Less(k, x) then x else k;
      forall y | y in s && y != m ensures Less(y, m) { LessIsTotal(x, k, y); }
    }
  }

  lemma LessIsTotal(a: EventSequence, b: EventSequence, c: EventSequence)
    ensures a == b || Less(a, b) || Less(b, a)
    ensures Less(c, b) && Less(b, a) ==> Less(c, a)
  {
  }

  lemma LargestExists(s: set<EventSequence>)
    requires s != {}
    ensures exists m :: m in s && forall y | y in s && y != m :: Less(y, m)
  {
    var m := HasLargest(s);
  }

  lemma SubsetSize<T>(a: set<T>, b: set<T>)
    requires a <= b
    ensures |a| <= |b|
  {
    assert b == a + (b - a);
  }

  /** The largest member joins the last n - 1 of the others. */
  lemma LastStep(s: set<EventSequence>, m: EventSequence, n: nat)
    requires IsLargest(s, m) && n > 0
    ensures Last(s, n) == {m} + Last(s - {m}, n - 1)
  {
    assert Above(s, m) == {};
    assert |Above(s, m)| == 0;
    forall x | x in s && x != m ensures |Above(s, x)| == |Above(s - {m}, x)| + 1 {
      assert Above(s, x) == Above(s - {m}, x) + {m};
    }
  }

  lemma LastNone(s: set<EventSequence>, n: nat)
    requires s == {} || n == 0
    ensures Last(s, n) == {}
  {
  }

  lemma LastIsPart(s: set<EventSequence>, n: nat)
    ensures Last(s, n) <= s
  {
  }

  lemma {:induction false} LastSize(s: set<EventSequence>, n: nat)
    ensures |Last(s, n)| == if n < |s| then n else |s|
    decreases |s|
  {
    hide Last, Less;
    if s == {} || n == 0 {
      LastNone(s, n);
    } else {
      var m := HasLargest(s);
      LastStep(s, m, n);
      LastSize(s - {m}, n - 1);
      LastIsPart(s - {m}, n - 1);
    }
  }

  /** Members not among the last n lie below all of them. */
  lemma LastIsUpperPart(s: set<EventSequence>, n: nat, x: EventSequence, y: EventSequence)
    requires x in s && x !in Last(s, n) && y in Last(s, n)
    ensures Less(x, y)
  {
    if !Less(x, y) {
      assert Above(s, x) <= Above(s, y);
      SubsetSize(Above(s, x), Above(s, y));
    }
  }

  /** Any part that still holds the last n of the whole has the same last n. */
  lemma LastOfPart(part: set<EventSequence>, whole: set<EventSequence>, n: nat)
    requires Last(whole, n) <= part <= whole
    ensures Last(part, n) == Last(whole, n)
  {
    forall x | x in part ensures |Above(part, x)| < n <==> |Above(whole, x)| < n {
      SubsetSize(Above(part, x), Above(whole, x));
      if |Above(whole, x)| >= n {
        forall y | y in Last(whole, n) ensures y in Above(part, x) { LastIsUpperPart(whole, n, x, y); }
        SubsetSize(Last(whole, n), Above(part, x));
        SubsetSize(Above(whole, x), whole);
        LastSize(whole, n);
      }
    }
  }

  function Union(tails: seq<set<EventSequence>>): set<EventSequence>
  {
    if tails == [] then {} else tails[0] + Union(tails[1..])
  }

  lemma {:induction false} InUnion(tails: seq<set<EventSequence>>, x: EventSequence)
    ensures x in Union(tails) <==> exists k :: 0 <= k < |tails| && x in tails[k]
  {
    if tails != [] {
      InUnion(tails[1..], x);
      if x in Union(tails[1..]) {
        var k :| 0 <= k < |tails| - 1 && x in tails[1..][k];
        assert x in tails[k + 1];
      }
      if exists k :: 1 <= k < |tails| && x in tails[k] {
        var k :| 1 <= k < |tails| && x in tails[k];
        assert x in tails[1..][k - 1];
      }
    }
  }

  /** When every keeper sends the last n of its own tail, the last n of what was sent are the last n
      of all the tails together. */
  lemma LastOfUnion(tails: seq<set<EventSequence>>, sent: seq<set<EventSequence>>, n: nat)
    requires |tails| == |sent|
    requires forall k | 0 <= k < |tails| :: sent[k] == Last(tails[k], n)
    ensures Last(Union(sent), n) == Last(Union(tails), n)
  {
    var whole, part := Union(tails), Union(sent);
    forall x | x in part ensures x in whole {
      InUnion(sent, x);
      InUnion(tails, x);
      var k :| 0 <= k < |sent| && x in sent[k];
      assert x in tails[k];
    }
    forall x | x in Last(whole, n) ensures x in part {
      InUnion(tails, x);
      var k :| 0 <= k < |tails| && x in tails[k];
      forall y | y in tails[k] ensures y in whole { InUnion(tails, y); }
      SubsetSize(Above(tails[k], x), Above(whole, x));
      assert x in sent[k];
      InUnion(sent, x);
    }
    LastOfPart(part, whole, n);
  }
}
