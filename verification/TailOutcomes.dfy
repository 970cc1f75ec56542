/** What a tail read answers when some keepers, or all of them, do not. */
module TailOutcomes {
  import opened Text
  import opened LastN
  import opened TailGather

  lemma {:induction false} TallyTimeouts(keepers: seq<Option<Keeper>>, replies: seq<Reply<EventSequence>>, upTo: nat)
    requires |keepers| == |replies| && upTo <= |keepers|
    ensures TallyOf(keepers, replies, upTo).timeouts > 0 <==>
            exists i :: 0 <= i < upTo && keepers[i].Some? && replies[i].TimedOut?
  {
    if upTo > 0 { TallyTimeouts(keepers, replies, upTo - 1); }
  }

  /** No keeper that was asked answered phase 1. */
  predicate SilentFirst(keepers: seq<Option<Keeper>>, replies: seq<Reply<EventSequence>>)
    requires |keepers| == |replies|
  {
    (exists i :: 0 <= i < |keepers| && keepers[i].Some?) &&
    forall i | 0 <= i < |keepers| && keepers[i].Some? :: !replies[i].Answer?
  }

  /** Some keeper was asked for events in phase 2, and none of those answered. */
  ghost predicate SilentSecond(req: Requests, replies: map<Keeper, Reply<Event>>)
  {
    req != map[] && forall k | k in req && k in replies :: !replies[k].Answer?
  }

  lemma NoMembers(events: seq<Event>)
    ensures events == [] || exists e :: e in events
  {
    if events != [] { assert events[0] in events; }
  }

  /** A read in which a whole phase goes unanswered fails, without events: as timed out if one of those
      asked in that phase timed out, as unknown otherwise. */
  lemma SilenceIsAnError(keepers: seq<Option<Keeper>>, n: nat, replies1: seq<Reply<EventSequence>>,
                         replies2: map<Keeper, Reply<Event>>, code: Code, events: seq<Event>,
                         merged: map<EventSequence, Keeper>, req: Requests)
    requires |keepers| == |replies1| && keepers != [] && n > 0
    requires TailRead(keepers, n, replies1, replies2, code, events, merged, req)
    requires SilentFirst(keepers, replies1) || SilentSecond(req, replies2)
    ensures events == []
    ensures var late := if SilentFirst(keepers, replies1)
                        then exists i :: 0 <= i < |keepers| && keepers[i].Some? && replies1[i].TimedOut?
                        else exists k :: k in req && k in replies2 && replies2[k].TimedOut?;
            code == if late then ERR_QUERY_TIMED_OUT else ERR_UNKNOWN
  {
    hide Last, TallyOf;
    TallyCounts(keepers, replies1, |keepers|);
    TallyTimeouts(keepers, replies1, |keepers|);
    if SilentFirst(keepers, replies1) {
      assert merged == map[] by { NothingNamed(keepers, replies1, merged); }
      NothingAsked(merged, n, req);
    }
    assert forall e :: !Returned(req, replies2, e);
    NoMembers(events);
  }

  lemma NothingNamed(keepers: seq<Option<Keeper>>, replies: seq<Reply<EventSequence>>,
                     merged: map<EventSequence, Keeper>)
    requires |keepers| == |replies| && SilentFirst(keepers, replies) && MergedFrom(merged, keepers, replies, |keepers|)
    ensures merged == map[]
  {
    assert merged.Keys == {};
  }

  lemma NothingAsked(merged: map<EventSequence, Keeper>, n: nat, req: Requests)
    requires merged == map[] && Requested(req, merged, Last(merged.Keys, n))
    ensures req == map[]
  {
    hide Requested;
    LastSize(merged.Keys, n);
    if req != map[] { SomeSelected(req, merged, Last(merged.Keys, n)); }
  }

  /** The keepers that answered sent exactly the events they were asked for. */
  ghost predicate TrueAnswers(req: Requests, replies: map<Keeper, Reply<Event>>, content: map<EventSequence, Event>)
  {
    forall k | k in req && k in replies && replies[k].Answer? ::
      req[k] <= content.Keys && forall e :: e in replies[k].values <==> e.seqno in req[k] && e == content[e.seqno]
  }

  /** When some of the keepers asked in phase 2 answer and others do not, the read succeeds with exactly
      those selected events whose keeper answered, in ascending order. */
  lemma MixedReadSucceeds(keepers: seq<Option<Keeper>>, n: nat, replies1: seq<Reply<EventSequence>>,
                          replies2: map<Keeper, Reply<Event>>, code: Code, events: seq<Event>,
                          merged: map<EventSequence, Keeper>, req: Requests, content: map<EventSequence, Event>)
    requires |keepers| == |replies1| && keepers != [] && n > 0
    requires TailRead(keepers, n, replies1, replies2, code, events, merged, req)
    requires TrueAnswers(req, replies2, content) && forall x | x in content :: content[x].seqno == x
    requires exists k :: k in req && k in replies2 && replies2[k].Answer?
    requires exists k :: k in req && k in replies2 && !replies2[k].Answer?
    ensures code == SUCCESS && Ascending(events)
    ensures forall e :: e in events <==>
              e.seqno in Last(merged.Keys, n) && e.seqno in merged &&
              var k := merged[e.seqno];
              k in replies2 && replies2[k].Answer? && e.seqno in content && e == content[e.seqno]
  {
    hide Last, TallyOf;
    TallyCounts(keepers, replies1, |keepers|);
    SomebodyNamed(keepers, replies1, merged, n, req);
    assert Reached(req, replies2) && !AllAnswered(req, replies2);
    forall e
      ensures e in events <==>
              e.seqno in Last(merged.Keys, n) && e.seqno in merged &&
              var k := merged[e.seqno];
              k in replies2 && replies2[k].Answer? && e.seqno in content && e == content[e.seqno]
    {
      OneEvent(req, replies2, merged, Last(merged.Keys, n), content, events, e);
    }
  }

  lemma SomebodyNamed(keepers: seq<Option<Keeper>>, replies: seq<Reply<EventSequence>>,
                      merged: map<EventSequence, Keeper>, n: nat, req: Requests)
    requires |keepers| == |replies| && MergedFrom(merged, keepers, replies, |keepers|)
    requires Requested(req, merged, Last(merged.Keys, n)) && req != map[]
    ensures exists i :: 0 <= i < |keepers| && keepers[i].Some? && replies[i].Answer?
  {
    hide Last;
    SomeSelected(req, merged, Last(merged.Keys, n));
    var x :| x in Last(merged.Keys, n);
    var i :| 0 <= i < |keepers| && Names(keepers, replies, i, x);
  }

  lemma OneEvent(req: Requests, replies: map<Keeper, Reply<Event>>, merged: map<EventSequence, Keeper>,
                 selected: set<EventSequence>, content: map<EventSequence, Event>, events: seq<Event>, e: Event)
    requires Requested(req, merged, selected) && TrueAnswers(req, replies, content)
    requires forall x | x in content :: content[x].seqno == x
    requires forall f | f in events :: Returned(req, replies, f)
    requires forall x :: (exists f :: f in events && f.seqno == x) <==> Delivered(req, replies, x)
    ensures e in events <==>
            e.seqno in selected && e.seqno in merged &&
            var k := merged[e.seqno];
            k in replies && replies[k].Answer? && e.seqno in content && e == content[e.seqno]
  {
    if e in events {
      var k :| k in req && k in replies && replies[k].Answer? && e in replies[k].values;
      assert e.seqno in req[k];
    }
    if e.seqno in selected && merged[e.seqno] in replies && replies[merged[e.seqno]].Answer? && e.seqno in content &&
       e == content[e.seqno]
    {
      assert e in replies[merged[e.seqno]].values;
      assert Returned(req, replies, e);
      assert Delivered(req, replies, e.seqno);
      var f :| f in events && f.seqno == e.seqno;
      var k :| k in req && k in replies && replies[k].Answer? && f in replies[k].values;
    }
  }

  /* ---- what the order of sequences means ---- */

  /** The events of a read come in order of time, those of one time by client, and those of one client by
      index. */
  lemma TimeNeverGoesBack(events: seq<Event>, i: nat, j: nat)
    requires Ascending(events) && i < j < |events|
    ensures var a, b := events[i].seqno, events[j].seqno;
            a.time <= b.time && (a.time == b.time ==> a.client <= b.client) &&
            (a.time == b.time && a.client == b.client ==> a.index < b.index)
  {
    assert Less(events[i].seqno, events[j].seqno);
  }

  /** Nothing that a selection of the last n leaves out is later than anything it takes. */
  lemma LeftOutAreEarlier(all: set<EventSequence>, n: nat, out: EventSequence, kept: EventSequence)
    requires out in all && out !in Last(all, n) && kept in Last(all, n)
    ensures out.time <= kept.time && |Last(all, n)| == n
  {
    LastSize(all, n);
    if Less(kept, out) {
      forall y | y in Above(all, out) ensures y in Above(all, kept) { LessIsTotal(y, out, kept); }
      SubsetSize(Above(all, out), Above(all, kept));
      assert false;
    }
    LessIsTotal(out, kept, out);
    if |all| <= n { EverythingIsLast(all, n, out); }
  }

  lemma EverythingIsLast(all: set<EventSequence>, n: nat, x: EventSequence)
    requires |all| <= n && x in all
    ensures x in Last(all, n)
  {
    assert x !in Above(all, x);
    SubsetSize(Above(all, x), all - {x});
  }
}
