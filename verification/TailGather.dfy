/** `gather_story_tail`: ask every keeper for its last n sequences, pick the last n of all, fetch
    their payloads from the keepers that named them. */
module TailGather {
  import opened Text
  import opened LastN

  type Keeper = nat

  datatype Event = Event(seqno: EventSequence, record: string)

  datatype Code = SUCCESS | ERR_UNKNOWN | ERR_NO_KEEPERS | ERR_QUERY_TIMED_OUT | ERR_PARTIAL_RESULT

  /** How one RPC of either phase ends. */
  datatype Reply<T> = IssueFailed | TimedOut | Failed | Answer(values: seq<T>)

  datatype Tally = Tally(timeouts: nat, errors: nat, responded: nat)

  function Count<T>(t: Tally, r: Reply<T>): Tally
  {
    match r
    case TimedOut => t.(timeouts := t.timeouts + 1)
    case Answer(_) => t.(responded := t.responded + 1)
    case _ => t.(errors := t.errors + 1)
  }

  const NO_TALLY := Tally(0, 0, 0)

  predicate NobodyAnswered(t: Tally) { t.responded == 0 && t.timeouts + t.errors > 0 }

  function FailureCode(t: Tally): Code { if t.timeouts > 0 then ERR_QUERY_TIMED_OUT else ERR_UNKNOWN }

  /* ---- phase 1 ---- */

  /** `seqToKeeper[seq] = keeper` for every sequence of an answer. */
  function Assign(m: map<EventSequence, Keeper>, seqs: seq<EventSequence>, k: Keeper): map<EventSequence, Keeper>
  {
    if seqs == [] then m else Assign(m, seqs[..|seqs| - 1], k)[seqs[|seqs| - 1] := k]
  }

  /** Keeper i's contribution: nothing from a null entry or an RPC that failed. */
  predicate Names(keepers: seq<Option<Keeper>>, replies: seq<Reply<EventSequence>>, i: nat, x: EventSequence)
    requires |keepers| == |replies| && i < |keepers|
  {
    keepers[i].Some? && replies[i].Answer? && x in replies[i].values
  }

  lemma {:induction false} AssignFacts(m: map<EventSequence, Keeper>, seqs: seq<EventSequence>, k: Keeper)
    ensures var r := Assign(m, seqs, k);
            (forall x :: x in r <==> x in m || x in seqs) &&
            (forall x | x in seqs :: r[x] == k) && (forall x | x in m && x !in seqs :: r[x] == m[x])
  {
    if seqs != [] {
      AssignFacts(m, seqs[..|seqs| - 1], k);
      assert seqs == seqs[..|seqs| - 1] + [seqs[|seqs| - 1]];
    }
  }

  /** The merged map: exactly the sequences named, each with a keeper that named it. */
  ghost predicate MergedFrom(m: map<EventSequence, Keeper>, keepers: seq<Option<Keeper>>,
                             replies: seq<Reply<EventSequence>>, upTo: nat)
    requires |keepers| == |replies| && upTo <= |keepers|
  {
    (forall x | x in m :: exists i :: 0 <= i < upTo && Names(keepers, replies, i, x) && keepers[i] == Some(m[x])) &&
    (forall i, x | 0 <= i < upTo && Names(keepers, replies, i, x) :: x in m)
  }

  /** The tally of the first `upTo` entries. */
  function TallyOf(keepers: seq<Option<Keeper>>, replies: seq<Reply<EventSequence>>, upTo: nat): Tally
    requires |keepers| == |replies| && upTo <= |keepers|
  {
    if upTo == 0 then NO_TALLY
    else
      var t := TallyOf(keepers, replies, upTo - 1);
      if keepers[upTo - 1].None? then t else Count(t, replies[upTo - 1])
  }

  method Phase1(keepers: seq<Option<Keeper>>, replies: seq<Reply<EventSequence>>)
    returns (merged: map<EventSequence, Keeper>, tally: Tally)
    requires |keepers| == |replies|
    ensures MergedFrom(merged, keepers, replies, |keepers|)
    ensures tally == TallyOf(keepers, replies, |keepers|)
  {
    merged, tally := map[], NO_TALLY;
    for i := 0 to |keepers|
      invariant MergedFrom(merged, keepers, replies, i)
      invariant tally == TallyOf(keepers, replies, i)
    {
      if keepers[i].Some? {
        tally := Count(tally, replies[i]);
        if replies[i].Answer? {
          ghost var before := merged;
          AssignFacts(merged, replies[i].values, keepers[i].value);
          merged := Assign(merged, replies[i].values, keepers[i].value);
          forall x | x in merged
            ensures exists j :: 0 <= j < i + 1 && Names(keepers, replies, j, x) && keepers[j] == Some(merged[x])
          {
            if x in replies[i].values {
              assert Names(keepers, replies, i, x);
            } else {
              var j :| 0 <= j < i && Names(keepers, replies, j, x) && keepers[j] == Some(before[x]);
              assert Names(keepers, replies, j, x);
            }
          }
        }
      }
    }
  }

  /* ---- selection ---- */

  function Largest(s: set<EventSequence>): (m: EventSequence)
    requires s != {}
    ensures IsLargest(s, m)
  {
    LargestExists(s);
    var m :| m in s && forall y | y in s && y != m :: Less(y, m);
    m
  }

  /** What each keeper is asked for. */
  type Requests = map<Keeper, set<EventSequence>>

  /** Every selected sequence is requested once, from the keeper the merged map gives. */
  ghost predicate Requested(req: Requests, merged: map<EventSequence, Keeper>, selected: set<EventSequence>)
  {
    selected <= merged.Keys &&
    (forall x | x in selected :: merged[x] in req && x in req[merged[x]]) &&
    (forall k | k in req :: req[k] != {} && forall x | x in req[k] :: x in selected && merged[x] == k)
  }

  lemma RequestOneMore(req: Requests, merged: map<EventSequence, Keeper>, selected: set<EventSequence>,
                       x: EventSequence)
    requires Requested(req, merged, selected) && x in merged
    ensures var k := merged[x];
            Requested(req[k := (if k in req then req[k] else {}) + {x}], merged, selected + {x})
  {
  }

  /** i of the n largest keys are selected and requested; the others are left. */
  ghost predicate Selecting(merged: map<EventSequence, Keeper>, n: nat, i: nat, left: set<EventSequence>,
                            selected: set<EventSequence>, req: Requests)
  {
    i <= n && left <= merged.Keys && |left| + i == |merged.Keys| &&
    Last(merged.Keys, n) == selected + Last(left, n - i) && Requested(req, merged, selected)
  }

  lemma SelectOneMore(merged: map<EventSequence, Keeper>, n: nat, i: nat, left: set<EventSequence>,
                      selected: set<EventSequence>, req: Requests, x: EventSequence)
    requires Selecting(merged, n, i, left, selected, req) && i < n && IsLargest(left, x)
    ensures var k := merged[x];
            Selecting(merged, n, i + 1, left - {x}, selected + {x}, req[k := (if k in req then req[k] else {}) + {x}])
  {
    hide Last, Requested;
    LastStep(left, x, n - i);
    RequestOneMore(req, merged, selected, x);
  }

  lemma SelectDone(merged: map<EventSequence, Keeper>, n: nat, i: nat, left: set<EventSequence>,
                   selected: set<EventSequence>, req: Requests)
    requires Selecting(merged, n, i, left, selected, req) && (i == n || left == {})
    ensures Requested(req, merged, Last(merged.Keys, n))
  {
    hide Requested;
    assert Last(left, n - i) == {};
    assert Last(merged.Keys, n) == selected;
  }

  /** The largest `take` keys, from the map's end backwards. */
  method Select(merged: map<EventSequence, Keeper>, n: nat) returns (req: Requests, take: nat)
    ensures take == if n < |merged| then n else |merged|
    ensures take == |Last(merged.Keys, n)|
    ensures Requested(req, merged, Last(merged.Keys, n))
  {
    hide Last, Requested;
    take := if n < |merged| then n else |merged|;
    LastSize(merged.Keys, n);
    assert |merged| == |merged.Keys|;
    req := map[];
    NothingRequested(merged);
    var left := merged.Keys;
    ghost var selected: set<EventSequence> := {};
    for i := 0 to take
      invariant Selecting(merged, n, i, left, selected, req)
    {
      var x := Largest(left);
      SelectOneMore(merged, n, i, left, selected, req, x);
      var k := merged[x];
      req := req[k := (if k in req then req[k] else {}) + {x}];
      left := left - {x};
      selected := selected + {x};
    }
    SelectDone(merged, n, take, left, selected, req);
  }

  lemma NothingRequested(merged: map<EventSequence, Keeper>)
    ensures Requested(map[], merged, {})
  {
  }

  /* ---- phase 2 ---- */

  function Put(m: map<EventSequence, Event>, events: seq<Event>): map<EventSequence, Event>
  {
    if events == [] then m
    else
      var e := events[|events| - 1];
      Put(m, events[..|events| - 1])[e.seqno := e]
  }

  lemma {:induction false} PutFacts(m: map<EventSequence, Event>, events: seq<Event>)
    requires forall x | x in m :: m[x].seqno == x
    ensures var r := Put(m, events);
            (forall x | x in r :: r[x].seqno == x && (r[x] in events || (x in m && r[x] == m[x]))) &&
            (forall x | x in m :: x in r) && (forall e | e in events :: e.seqno in r)
  {
    if events != [] {
      PutFacts(m, events[..|events| - 1]);
      assert events == events[..|events| - 1] + [events[|events| - 1]];
    }
  }

  /** A keeper that returns nothing but what it was asked for. */
  ghost predicate OnlyRequested(req: Requests, replies: map<Keeper, Reply<Event>>)
  {
    forall k | k in req && k in replies && replies[k].Answer? ::
      forall e | e in replies[k].values :: e.seqno in req[k]
  }

  /** A keeper that was asked for something sent this event. */
  ghost predicate Returned(req: Requests, replies: map<Keeper, Reply<Event>>, e: Event)
  {
    exists k :: k in req && k in replies && replies[k].Answer? && e in replies[k].values
  }

  /** Sequence x came back from a keeper that was asked. */
  ghost predicate Delivered(req: Requests, replies: map<Keeper, Reply<Event>>, x: EventSequence)
  {
    exists e :: Returned(req, replies, e) && e.seqno == x
  }

  ghost predicate AllAnswered(req: Requests, replies: map<Keeper, Reply<Event>>)
  {
    forall k | k in req :: k in replies && replies[k].Answer?
  }

  method Phase2(req: Requests, replies: map<Keeper, Reply<Event>>)
    returns (assembled: map<EventSequence, Event>, tally: Tally)
    requires forall k | k in req :: k in replies
    ensures forall x | x in assembled :: assembled[x].seqno == x && Returned(req, replies, assembled[x])
    ensures forall x :: x in assembled <==> Delivered(req, replies, x)
    ensures tally.timeouts + tally.errors == 0 <==> AllAnswered(req, replies)
    ensures tally.responded > 0 <==> exists k :: k in req && replies[k].Answer?
    ensures tally.timeouts > 0 <==> exists k :: k in req && replies[k].TimedOut?
  {
    assembled, tally := map[], NO_TALLY;
    var left := req.Keys;
    ghost var done: set<Keeper> := {};
    while left != {}
      invariant left + done == req.Keys && left !! done
      invariant forall x | x in assembled :: assembled[x].seqno == x && Returned(req, replies, assembled[x])
      invariant forall k, e | k in done && replies[k].Answer? && e in replies[k].values :: e.seqno in assembled
      invariant tally.timeouts + tally.errors == 0 <==> forall k | k in done :: replies[k].Answer?
      invariant tally.responded > 0 <==> exists k :: k in done && replies[k].Answer?
      invariant tally.timeouts > 0 <==> exists k :: k in done && replies[k].TimedOut?
      decreases left
    {
      var k :| k in left;
      tally := Count(tally, replies[k]);
      if replies[k].Answer? {
        PutFacts(assembled, replies[k].values);
        ghost var before := assembled;
        assembled := Put(assembled, replies[k].values);
        forall x | x in assembled ensures Returned(req, replies, assembled[x]) {
          if assembled[x] !in replies[k].values { assert assembled[x] == before[x]; }
        }
      }
      left, done := left - {k}, done + {k};
    }
    assert done == req.Keys;
  }

  /* ---- the result ---- */

  ghost predicate Ascending(events: seq<Event>)
  {
    forall i, j | 0 <= i < j < |events| :: Less(events[i].seqno, events[j].seqno)
  }

  /** The map's values in key order. */
  method InOrder(assembled: map<EventSequence, Event>) returns (events: seq<Event>)
    requires forall x | x in assembled :: assembled[x].seqno == x
    ensures Ascending(events) && |events| == |assembled|
    ensures forall e :: e in events <==> e.seqno in assembled && assembled[e.seqno] == e
  {
    events := [];
    var left := assembled.Keys;
    while left != {}
      invariant left <= assembled.Keys && |events| + |left| == |assembled.Keys|
      invariant Ascending(events)
      invariant forall e, x | e in events && x in left :: Less(x, e.seqno)
      invariant forall e :: e in events <==> e.seqno in assembled && e.seqno !in left && assembled[e.seqno] == e
      decreases left
    {
      var x := Largest(left);
      events := [assembled[x]] + events;
      left := left - {x};
    }
    assert |assembled| == |assembled.Keys|;
  }

  /** Phase 2 and the result of a read that selected something. */
  method Fetch(req: Requests, take: nat, replies: map<Keeper, Reply<Event>>) returns (code: Code, events: seq<Event>)
    requires forall k | k in req :: k in replies
    requires req != map[]
    ensures Ascending(events)
    ensures code == FetchCode(req, replies, take, events)
    ensures Reached(req, replies) ==>
              forall x :: (exists e :: e in events && e.seqno == x) <==> Delivered(req, replies, x)
    ensures !Reached(req, replies) ==> events == []
    ensures forall e | e in events :: Returned(req, replies, e)
  {
    var assembled, tally := Phase2(req, replies);
    var k :| k in req;
    assert replies[k].Answer? || tally.timeouts + tally.errors > 0;
    events := [];
    if NobodyAnswered(tally) { return FailureCode(tally), events; }
    events := InOrder(assembled);
    forall x ensures (exists e :: e in events && e.seqno == x) <==> Delivered(req, replies, x) {
      if x in assembled { assert assembled[x] in events; }
    }
    if tally.timeouts + tally.errors == 0 && |assembled| < take {
      return ERR_PARTIAL_RESULT, events;
    }
    code := SUCCESS;
  }

  /** What a whole read gives. `merged` is what phase 1 gathered and `req` what phase 2 asked for. */
  ghost predicate TailRead(keepers: seq<Option<Keeper>>, n: nat, replies1: seq<Reply<EventSequence>>,
                           replies2: map<Keeper, Reply<Event>>, code: Code, events: seq<Event>,
                           merged: map<EventSequence, Keeper>, req: Requests)
    requires |keepers| == |replies1|
  {
    Ascending(events) && (forall e | e in events :: Returned(req, replies2, e)) &&
    MergedFrom(merged, keepers, replies1, |keepers|) && Requested(req, merged, Last(merged.Keys, n)) &&
    (keepers == [] ==> code == ERR_NO_KEEPERS && events == []) &&
    (keepers != [] && n == 0 ==> code == SUCCESS && events == []) &&
    (keepers != [] && n > 0 ==>
      var tally := TallyOf(keepers, replies1, |keepers|);
      code == ExpectedCode(tally, n, merged, req, replies2, events) &&
      (!NobodyAnswered(tally) && Reached(req, replies2) ==>
        forall x :: (exists e :: e in events && e.seqno == x) <==> Delivered(req, replies2, x)))
  }

  method GatherStoryTail(keepers: seq<Option<Keeper>>, n: nat, replies1: seq<Reply<EventSequence>>,
                         replies2: map<Keeper, Reply<Event>>)
    returns (code: Code, events: seq<Event>, ghost merged: map<EventSequence, Keeper>, ghost req: Requests)
    requires |keepers| == |replies1|
    requires forall i | 0 <= i < |keepers| && keepers[i].Some? :: keepers[i].value in replies2
    ensures Ascending(events)
    ensures keepers == [] ==> code == ERR_NO_KEEPERS && events == []
    ensures keepers != [] && n == 0 ==> code == SUCCESS && events == []
    ensures TailRead(keepers, n, replies1, replies2, code, events, merged, req)
    ensures OnlyRequested(req, replies2) ==> |events| <= n && forall e | e in events :: e.seqno in Last(merged.Keys, n)
  {
    hide MergedFrom, Requested, Last, OnlyRequested, Delivered, Returned;
    var m, tally := Phase1(keepers, replies1);
    var r, take := Select(m, n);
    merged, req := m, r;
    events := [];
    if keepers == [] { return ERR_NO_KEEPERS, [], merged, req; }
    if n == 0 { return SUCCESS, [], merged, req; }
    if NobodyAnswered(tally) { return FailureCode(tally), [], merged, req; }
    if |m| == 0 {
      EmptySelection(m, n, r, replies2);
      return SUCCESS, [], merged, req;
    }
    RequestsAnswerable(m, keepers, replies1, r, Last(m.Keys, n), replies2);
    SomethingRequested(m, n, r);
    code, events := Fetch(r, take, replies2);
    if OnlyRequested(r, replies2) { ReturnedAreSelected(r, m, Last(m.Keys, n), replies2, events); }
  }

  ghost function FetchCode(req: Requests, replies: map<Keeper, Reply<Event>>, take: nat, events: seq<Event>): Code
  {
    if !Reached(req, replies) then
      if exists k :: k in req && k in replies && replies[k].TimedOut? then ERR_QUERY_TIMED_OUT else ERR_UNKNOWN
    else if AllAnswered(req, replies) && |events| < take then ERR_PARTIAL_RESULT
    else SUCCESS
  }

  /** Some keeper asked in phase 2 answered (or none was asked). */
  ghost predicate Reached(req: Requests, replies: map<Keeper, Reply<Event>>)
  {
    req == map[] || exists k :: k in req && k in replies && replies[k].Answer?
  }

  /** The code of a read of n > 0 events from a story with keepers. */
  ghost function ExpectedCode(t: Tally, n: nat, merged: map<EventSequence, Keeper>, req: Requests,
                              replies: map<Keeper, Reply<Event>>, events: seq<Event>): Code
  {
    if NobodyAnswered(t) then FailureCode(t) else FetchCode(req, replies, |Last(merged.Keys, n)|, events)
  }

  lemma EmptySelection(m: map<EventSequence, Keeper>, n: nat, req: Requests, replies: map<Keeper, Reply<Event>>)
    requires |m| == 0 && Requested(req, m, Last(m.Keys, n))
    ensures req == map[] && |Last(m.Keys, n)| == 0 && (forall x :: !Delivered(req, replies, x))
  {
    hide Requested;
    LastSize(m.Keys, n);
    if req != map[] { SomeSelected(req, m, Last(m.Keys, n)); }
  }

  lemma SomeSelected(req: Requests, m: map<EventSequence, Keeper>, selected: set<EventSequence>)
    requires Requested(req, m, selected) && req != map[]
    ensures selected != {}
  {
    var k :| k in req.Keys;
    var x :| x in req[k];
    assert x in selected;
  }

  lemma RequestsAnswerable(m: map<EventSequence, Keeper>, keepers: seq<Option<Keeper>>,
                           replies1: seq<Reply<EventSequence>>, req: Requests, selected: set<EventSequence>,
                           replies2: map<Keeper, Reply<Event>>)
    requires |keepers| == |replies1| && MergedFrom(m, keepers, replies1, |keepers|) && Requested(req, m, selected)
    requires forall i | 0 <= i < |keepers| && keepers[i].Some? :: keepers[i].value in replies2
    ensures forall k | k in req :: k in replies2
  {
    forall k | k in req ensures k in replies2 {
      var x :| x in req[k];
      assert m[x] == k;
    }
  }

  lemma SomethingRequested(m: map<EventSequence, Keeper>, n: nat, req: Requests)
    requires |m| > 0 && n > 0 && Requested(req, m, Last(m.Keys, n))
    ensures req != map[]
  {
    LastSize(m.Keys, n);
    assert |m| == |m.Keys|;
    var x :| x in Last(m.Keys, n);
    assert m[x] in req;
  }

  lemma ReturnedAreSelected(req: Requests, m: map<EventSequence, Keeper>, selected: set<EventSequence>,
                             replies: map<Keeper, Reply<Event>>, events: seq<Event>)
    requires Requested(req, m, selected) && OnlyRequested(req, replies) && Ascending(events)
    requires forall e | e in events :: Returned(req, replies, e)
    ensures forall e | e in events :: e.seqno in selected
    ensures |events| <= |selected|
  {
    forall e | e in events ensures e.seqno in selected {
      var k :| k in req && k in replies && replies[k].Answer? && e in replies[k].values;
      assert e.seqno in req[k];
    }
    DistinctKeys(events);
    SubsetSize(set e | e in events :: e.seqno, selected);
  }

  /* ---- what the caller may conclude ---- */

  /** With every phase-2 call answered by keepers that return only what was asked, CL_SUCCESS means
      all selected events came back, and anything less is CL_ERR_PARTIAL_RESULT. */
  lemma SuccessMeansComplete(n: nat, merged: map<EventSequence, Keeper>, req: Requests,
                             replies: map<Keeper, Reply<Event>>, events: seq<Event>, t: Tally)
    requires n > 0 && !NobodyAnswered(t) && Requested(req, merged, Last(merged.Keys, n))
    requires AllAnswered(req, replies) && OnlyRequested(req, replies) && Ascending(events)
    requires forall e | e in events :: Returned(req, replies, e)
    requires forall x :: (exists e :: e in events && e.seqno == x) <==> Delivered(req, replies, x)
    ensures var selected := Last(merged.Keys, n);
            var code := ExpectedCode(t, n, merged, req, replies, events);
            (code == SUCCESS <==> forall x | x in selected :: Delivered(req, replies, x)) &&
            (code != SUCCESS ==> code == ERR_PARTIAL_RESULT)
  {
    var selected := Last(merged.Keys, n);
    var keys := set e | e in events :: e.seqno;
    ReturnedAreSelected(req, merged, selected, replies, events);
    DistinctKeys(events);
    if req != map[] {
      var k :| k in req;
      assert Reached(req, replies);
    }
    if |events| >= |selected| {
      SameSize(keys, selected);
    } else if forall x | x in selected :: Delivered(req, replies, x) {
      assert selected <= keys;
      SubsetSize(selected, keys);
    }
  }

  lemma SameSize(a: set<EventSequence>, b: set<EventSequence>)
    requires a <= b && |a| >= |b|
    ensures a == b
  {
    SubsetSize(a, b);
    assert b == a + (b - a);
    assert |b - a| == 0;
  }

  lemma {:induction false} DistinctKeys(events: seq<Event>)
    requires Ascending(events)
    ensures |set e | e in events :: e.seqno| == |events|
  {
    if events != [] {
      var init, last := events[..|events| - 1], events[|events| - 1];
      DistinctKeys(init);
      assert events == init + [last];
      assert (set e | e in events :: e.seqno) == (set e | e in init :: e.seqno) + {last.seqno};
      assert forall e | e in init :: Less(e.seqno, last.seqno);
    }
  }

  lemma {:induction false} TallyCounts(keepers: seq<Option<Keeper>>, replies: seq<Reply<EventSequence>>, upTo: nat)
    requires |keepers| == |replies| && upTo <= |keepers|
    ensures var t := TallyOf(keepers, replies, upTo);
            (t.responded > 0 <==> exists i :: 0 <= i < upTo && keepers[i].Some? && replies[i].Answer?) &&
            (t.responded + t.timeouts + t.errors > 0 <==> exists i :: 0 <= i < upTo && keepers[i].Some?)
  {
    if upTo > 0 { TallyCounts(keepers, replies, upTo - 1); }
  }

  /** An empty CL_SUCCESS is a real answer: n was 0, or some keeper answered phase 1. */
  lemma EmptySuccessIsAnAnswer(keepers: seq<Option<Keeper>>, replies: seq<Reply<EventSequence>>, n: nat,
                               merged: map<EventSequence, Keeper>, req: Requests, replies2: map<Keeper, Reply<Event>>)
    requires |keepers| == |replies| && n > 0 && exists i :: 0 <= i < |keepers| && keepers[i].Some?
    requires ExpectedCode(TallyOf(keepers, replies, |keepers|), n, merged, req, replies2, []) == SUCCESS
    ensures exists i :: 0 <= i < |keepers| && keepers[i].Some? && replies[i].Answer?
  {
    TallyCounts(keepers, replies, |keepers|);
  }

  /** When every keeper answers phase 1 with the last n of its own tail, the selected sequences are
      the last n of all tails together, each assigned to a keeper that holds it. */
  lemma SelectionIsGlobal(keepers: seq<Option<Keeper>>, replies: seq<Reply<EventSequence>>,
                          tails: seq<set<EventSequence>>, n: nat, merged: map<EventSequence, Keeper>)
    requires |keepers| == |replies| == |tails| && MergedFrom(merged, keepers, replies, |keepers|)
    requires forall i | 0 <= i < |keepers| ::
               keepers[i].Some? && replies[i].Answer? && (set x | x in replies[i].values) == Last(tails[i], n)
    ensures Last(merged.Keys, n) == Last(Union(tails), n)
    ensures |Last(merged.Keys, n)| == if n < |Union(tails)| then n else |Union(tails)|
    ensures forall x | x in Last(merged.Keys, n) ::
              x in merged && exists i :: 0 <= i < |keepers| && keepers[i] == Some(merged[x]) && x in tails[i]
  {
    hide Last, MergedFrom, Union;
    var sent := seq(|tails|, i requires 0 <= i < |tails| => Last(tails[i], n));
    MergedKeys(keepers, replies, sent, merged);
    LastOfUnion(tails, sent, n);
    LastSize(Union(tails), n);
    forall x | x in Last(merged.Keys, n)
      ensures x in merged && exists i :: 0 <= i < |keepers| && keepers[i] == Some(merged[x]) && x in tails[i]
    {
      InLast(merged.Keys, n, x);
      HeldByItsKeeper(keepers, replies, tails, n, merged, x);
    }
  }

  lemma HeldByItsKeeper(keepers: seq<Option<Keeper>>, replies: seq<Reply<EventSequence>>,
                        tails: seq<set<EventSequence>>, n: nat, merged: map<EventSequence, Keeper>, x: EventSequence)
    requires |keepers| == |replies| == |tails| && MergedFrom(merged, keepers, replies, |keepers|) && x in merged
    requires forall i | 0 <= i < |keepers| ::
               keepers[i].Some? && replies[i].Answer? && (set x | x in replies[i].values) == Last(tails[i], n)
    ensures exists i :: 0 <= i < |keepers| && keepers[i] == Some(merged[x]) && x in tails[i]
  {
    hide Last;
    var i :| 0 <= i < |keepers| && Names(keepers, replies, i, x) && keepers[i] == Some(merged[x]);
    assert x in (set y | y in replies[i].values);
    InLast(tails[i], n, x);
  }

  lemma InLast(s: set<EventSequence>, n: nat, x: EventSequence)
    requires x in Last(s, n)
    ensures x in s
  {
  }

  lemma MergedKeys(keepers: seq<Option<Keeper>>, replies: seq<Reply<EventSequence>>, sent: seq<set<EventSequence>>,
                   merged: map<EventSequence, Keeper>)
    requires |keepers| == |replies| == |sent| && MergedFrom(merged, keepers, replies, |keepers|)
    requires forall i | 0 <= i < |keepers| ::
               keepers[i].Some? && replies[i].Answer? && (set x | x in replies[i].values) == sent[i]
    ensures merged.Keys == Union(sent)
  {
    hide Union;
    forall x ensures x in merged.Keys <==> x in Union(sent) {
      InUnion(sent, x);
      if x in merged {
        var i :| 0 <= i < |keepers| && Names(keepers, replies, i, x);
        assert x in (set y | y in replies[i].values);
      }
      if x in Union(sent) {
        var i :| 0 <= i < |sent| && x in sent[i];
        assert x in (set y | y in replies[i].values);
        assert Names(keepers, replies, i, x);
      }
    }
  }

  /* ---- a read of healthy keepers ---- */

  /** A keeper that was asked sends exactly the events it was asked for. */
  ghost predicate InFull(req: Requests, replies: map<Keeper, Reply<Event>>, content: map<EventSequence, Event>)
  {
    forall k | k in req :: k in replies && replies[k].Answer? && req[k] <= content.Keys &&
                           forall e :: e in replies[k].values <==> e.seqno in req[k] && e == content[e.seqno]
  }

  lemma InFullFacts(req: Requests, replies: map<Keeper, Reply<Event>>, content: map<EventSequence, Event>,
                    merged: map<EventSequence, Keeper>, selected: set<EventSequence>)
    requires InFull(req, replies, content) && Requested(req, merged, selected)
    requires forall x | x in content :: content[x].seqno == x
    ensures AllAnswered(req, replies) && OnlyRequested(req, replies) && Reached(req, replies)
    ensures forall e :: Returned(req, replies, e) <==>
              e.seqno in selected && e.seqno in content && e == content[e.seqno]
    ensures forall x | x in selected :: x in content && Delivered(req, replies, x)
  {
    if req != map[] {
      var k :| k in req;
      assert replies[k].Answer?;
    }
    forall x | x in selected ensures x in content && Returned(req, replies, content[x]) {
      assert x in req[merged[x]];
      assert content[x] in replies[merged[x]].values;
    }
    forall x | x in selected ensures Delivered(req, replies, x) { assert content[x].seqno == x; }
  }

  lemma EverybodyAnswered(keepers: seq<Option<Keeper>>, replies: seq<Reply<EventSequence>>)
    requires |keepers| == |replies| && keepers != []
    requires forall i | 0 <= i < |keepers| :: keepers[i].Some? && replies[i].Answer?
    ensures !NobodyAnswered(TallyOf(keepers, replies, |keepers|))
  {
    TallyCounts(keepers, replies, |keepers|);
  }

  /** When every keeper names the last n of its own tail and sends what it is asked for in full, the
      read succeeds with exactly the last n events of all the tails together, in ascending order. */
  lemma HealthyReadIsTheLastN(keepers: seq<Option<Keeper>>, n: nat, replies1: seq<Reply<EventSequence>>,
                              replies2: map<Keeper, Reply<Event>>, code: Code, events: seq<Event>,
                              merged: map<EventSequence, Keeper>, req: Requests,
                              tails: seq<set<EventSequence>>, content: map<EventSequence, Event>)
    requires |keepers| == |replies1| == |tails| && keepers != [] && n > 0
    requires TailRead(keepers, n, replies1, replies2, code, events, merged, req)
    requires forall i | 0 <= i < |keepers| ::
               keepers[i].Some? && replies1[i].Answer? && (set x | x in replies1[i].values) == Last(tails[i], n)
    requires InFull(req, replies2, content) && forall x | x in content :: content[x].seqno == x
    ensures code == SUCCESS && Ascending(events)
    ensures var selected := Last(Union(tails), n);
            |events| == |selected| == (if n < |Union(tails)| then n else |Union(tails)|) &&
            forall e :: e in events <==> e.seqno in selected && e.seqno in content && e == content[e.seqno]
  {
    hide Last, Union, MergedFrom, Requested, InFull, OnlyRequested, Returned, Delivered;
    var selected := Last(merged.Keys, n);
    EverybodyAnswered(keepers, replies1);
    SelectionIsGlobal(keepers, replies1, tails, n, merged);
    InFullFacts(req, replies2, content, merged, selected);
    SuccessMeansComplete(n, merged, req, replies2, events, TallyOf(keepers, replies1, |keepers|));
    ReturnedAreSelected(req, merged, selected, replies2, events);
    forall x | x in selected ensures content[x] in events {
      assert Delivered(req, replies2, x);
      var e :| e in events && e.seqno == x;
    }
    var keys := set e | e in events :: e.seqno;
    assert selected <= keys by { forall x | x in selected ensures x in keys { assert content[x] in events; } }
    DistinctKeys(events);
    SubsetSize(selected, keys);
  }
}
