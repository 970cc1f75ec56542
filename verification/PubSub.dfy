/** A pub/sub subscription: polling a story from a watermark and handing messages on. */
module PubSub {
  import opened Text
  import opened TimeSort

  type Message = Stamped<string>

  /** One poll: how the replay ends, and how many messages of its sorted answer are looked at before
      the worker sees a stop request, if it does. The methods are given the answer as it came in, the
      functions as the sort arranged it. */
  datatype Poll = Poll(replay: Option<seq<Message>>, stopAfter: Option<nat>)

  /** `delivered` are the callbacks made so far. */
  datatype Sub = Sub(watermark: uint64, stopped: bool, delivered: seq<Message>)

  /** The same poll with its answer sorted, one way or another. */
  ghost predicate Sorts(used: Poll, p: Poll)
  {
    used.stopAfter == p.stopAfter &&
    if p.replay.None? then used.replay.None? else used.replay.Some? && Arranges(used.replay.value, p.replay.value)
  }

  /** The messages a stop request leaves to be looked at. */
  function Seen(p: Poll, messages: seq<Message>): seq<Message>
  {
    if p.stopAfter.Some? && p.stopAfter.value < |messages| then messages[..p.stopAfter.value] else messages
  }

  /** Messages from the watermark on, in order. */
  function NotBefore(messages: seq<Message>, watermark: nat): seq<Message>
  {
    if messages == [] then []
    else
      var before, last := NotBefore(messages[..|messages| - 1], watermark), messages[|messages| - 1];
      if last.time < watermark then before else before + [last]
  }

  /** The largest of `least` and the stamps handed on. */
  function MaxSeen(messages: seq<Message>, least: nat): nat
  {
    if messages == [] then least
    else
      var before, last := MaxSeen(messages[..|messages| - 1], least), messages[|messages| - 1];
      if last.time > before then last.time else before
  }

  predicate Stamps64(p: Poll)
  {
    p.replay.Some? ==> forall i | 0 <= i < |p.replay.value| :: p.replay.value[i].time <= UINT64_MAX
  }

  lemma SortedStamps64(used: Poll, p: Poll)
    requires Sorts(used, p) && Stamps64(p)
    ensures Stamps64(used)
  {
    if p.replay.Some? {
      var a, b := used.replay.value, p.replay.value;
      forall i | 0 <= i < |a| ensures a[i].time <= UINT64_MAX { InBoth(a, b, a[i]); }
    }
  }

  /** One turn of `runSubscription`'s loop. */
  function PollStep(s: Sub, p: Poll): Sub
    requires Stamps64(p)
  {
    if p.replay.None? || p.replay.value == [] then s.(stopped := p.stopAfter.Some?)
    else
      var handed := NotBefore(Seen(p, p.replay.value), s.watermark);
      var top := MaxSeen(handed, s.watermark);
      TopFits(Seen(p, p.replay.value), s.watermark);
      Sub(if top == UINT64_MAX then s.watermark else top + 1, p.stopAfter.Some?, s.delivered + handed)
  }

  lemma {:induction false} MaxIsAStamp(messages: seq<Message>, least: nat)
    ensures MaxSeen(messages, least) >= least
    ensures MaxSeen(messages, least) == least ||
            exists i :: 0 <= i < |messages| && messages[i].time == MaxSeen(messages, least)
    ensures forall i | 0 <= i < |messages| :: messages[i].time <= MaxSeen(messages, least)
  {
    if messages != [] {
      var init := messages[..|messages| - 1];
      MaxIsAStamp(init, least);
      if i :| 0 <= i < |init| && init[i].time == MaxSeen(init, least) { assert messages[i].time == init[i].time; }
    }
  }

  lemma {:induction false} NotBeforeMembers(messages: seq<Message>, watermark: nat)
    ensures forall m | m in NotBefore(messages, watermark) :: m in messages && m.time >= watermark
  {
    if messages != [] {
      NotBeforeMembers(messages[..|messages| - 1], watermark);
      assert messages == messages[..|messages| - 1] + [messages[|messages| - 1]];
    }
  }

  lemma {:induction false} NotBeforeKeepsAll(messages: seq<Message>, watermark: nat)
    requires forall i | 0 <= i < |messages| :: messages[i].time >= watermark
    ensures NotBefore(messages, watermark) == messages
  {
    if messages != [] {
      NotBeforeKeepsAll(messages[..|messages| - 1], watermark);
      assert messages == messages[..|messages| - 1] + [messages[|messages| - 1]];
    }
  }

  /** What a poll hands on has 64-bit stamps, so the next watermark is one too. */
  lemma TopFits(messages: seq<Message>, watermark: uint64)
    requires forall i | 0 <= i < |messages| :: messages[i].time <= UINT64_MAX
    ensures MaxSeen(NotBefore(messages, watermark), watermark) <= UINT64_MAX
  {
    var handed := NotBefore(messages, watermark);
    MaxIsAStamp(handed, watermark);
    NotBeforeMembers(messages, watermark);
    assert forall i | 0 <= i < |handed| :: handed[i] in handed;
  }

  lemma PollStepIs(s: Sub, p: Poll)
    requires Stamps64(p)
    ensures p.replay.None? || p.replay.value == [] ==> PollStep(s, p) == s.(stopped := p.stopAfter.Some?)
    ensures p.replay.Some? && p.replay.value != [] ==>
              var handed := NotBefore(Seen(p, p.replay.value), s.watermark);
              var top := MaxSeen(handed, s.watermark);
              0 <= top <= UINT64_MAX &&
              PollStep(s, p) ==
              Sub(if top == UINT64_MAX then s.watermark else top + 1, p.stopAfter.Some?, s.delivered + handed)
  {
    if p.replay.Some? && p.replay.value != [] { TopFits(Seen(p, p.replay.value), s.watermark); }
  }

  lemma SeenIsPrefix(p: Poll, ms: seq<Message>)
    ensures Seen(p, ms) <= ms && (p.stopAfter.None? ==> Seen(p, ms) == ms)
  {
  }

  lemma SeenAt(p: Poll, ms: seq<Message>, i: nat)
    requires i < |ms| && (p.stopAfter.Some? ==> i < p.stopAfter.value)
    ensures i < |Seen(p, ms)| && Seen(p, ms)[i] == ms[i]
  {
  }

  lemma StopsThere(p: Poll, ms: seq<Message>, i: nat)
    requires i <= |Seen(p, ms)| && p.stopAfter.Some? && i >= p.stopAfter.value
    ensures i == |Seen(p, ms)|
  {
  }

  lemma NothingSeen(seen: seq<Message>, watermark: nat)
    ensures NotBefore(seen[..0], watermark) == [] && MaxSeen([], watermark) == watermark
  {
  }

  /** One more message looked at. */
  lemma NotBeforeStep(seen: seq<Message>, i: nat, watermark: nat)
    requires i < |seen|
    ensures var before, after := NotBefore(seen[..i], watermark), NotBefore(seen[..i + 1], watermark);
            var top := MaxSeen(before, watermark);
            if seen[i].time < watermark then after == before
            else after == before + [seen[i]] &&
                 MaxSeen(after, watermark) == if seen[i].time > top then seen[i].time else top
  {
    assert seen[..i + 1][..i] == seen[..i];
    var before := NotBefore(seen[..i], watermark);
    assert (before + [seen[i]])[..|before|] == before;
  }

  class Subscription {
    var watermark: uint64
    var stopRequested: bool
    var delivered: seq<Message>

    constructor (since: uint64)
      ensures Now() == Sub(since, false, [])
    {
      watermark, stopRequested, delivered := since, false, [];
    }

    ghost function Now(): Sub
      reads this
    {
      Sub(watermark, stopRequested, delivered)
    }

    method PollOnce(p: Poll) returns (ghost used: Poll)
      requires !stopRequested && Stamps64(p)
      modifies this
      ensures Sorts(used, p) && Stamps64(used)
      ensures Now() == PollStep(old(Now()), used)
    {
      hide PollStep, NotBefore, MaxSeen, Seen;
      used := p;
      PollStepIs(old(Now()), p);
      if p.replay.None? || p.replay.value == [] {
        stopRequested := p.stopAfter.Some?;
        return;
      }
      var messages := StdSort(p.replay.value);
      used := p.(replay := Some(messages));
      SortedStamps64(used, p);
      SameSize(messages, p.replay.value);
      ghost var seen := Seen(used, messages);
      SeenIsPrefix(used, messages);
      var maxSeen := watermark;
      NothingSeen(seen, watermark);
      var i := 0;
      PollStepIs(old(Now()), used);
      while i < |messages|
        invariant 0 <= i <= |seen| <= |messages| && seen == Seen(used, messages)
        invariant watermark == old(watermark)
        invariant delivered == old(delivered) + NotBefore(seen[..i], watermark)
        invariant maxSeen == MaxSeen(NotBefore(seen[..i], watermark), watermark)
        invariant stopRequested ==> i == |seen| && p.stopAfter.Some?
        decreases |messages| - i
      {
        if p.stopAfter.Some? && i >= p.stopAfter.value {
          StopsThere(used, messages, i);
          stopRequested := true;
          break;
        }
        SeenAt(used, messages, i);
        NotBeforeStep(seen, i, watermark);
        var msg := messages[i];
        if msg.time >= watermark {
          delivered := delivered + [msg];
          if msg.time > maxSeen { maxSeen := msg.time; }
        }
        i := i + 1;
      }
      assert seen[..|seen|] == seen;
      TopFits(seen, watermark);
      if maxSeen != UINT64_MAX {
        watermark := maxSeen + 1;
      }
      stopRequested := p.stopAfter.Some?;
    }

    /** The worker: polls until it is told to stop. */
    method Run(polls: seq<Poll>) returns (ghost used: seq<Poll>)
      requires !stopRequested && forall k | 0 <= k < |polls| :: Stamps64(polls[k])
      modifies this
      ensures |used| <= |polls| && (Now().stopped || |used| == |polls|)
      ensures forall k | 0 <= k < |used| :: Sorts(used[k], polls[k]) && Stamps64(used[k])
      ensures Now() == Polled(old(Now()), used, |used|)
      ensures forall k | 0 <= k < |used| :: !Polled(old(Now()), used, k).stopped
    {
      hide PollStep, Sorts, Stamps64;
      var k := 0;
      used := [];
      while k < |polls| && !stopRequested
        invariant 0 <= k == |used| <= |polls|
        invariant forall j | 0 <= j < k :: Sorts(used[j], polls[j]) && Stamps64(used[j])
        invariant Now() == Polled(old(Now()), used, k)
        invariant forall j | 0 <= j < k :: !Polled(old(Now()), used, j).stopped
        decreases |polls| - k
      {
        ghost var p := PollOnce(polls[k]);
        PolledSoFar(old(Now()), used, p, k);
        used := used + [p];
        k := k + 1;
      }
    }
  }

  /** After the first k polls. */
  function Polled(s: Sub, polls: seq<Poll>, k: nat): Sub
    requires k <= |polls| && forall j | 0 <= j < k :: Stamps64(polls[j])
  {
    if k == 0 then s else PollStep(Polled(s, polls, k - 1), polls[k - 1])
  }

  lemma {:induction false} PolledSoFar(s: Sub, polls: seq<Poll>, p: Poll, k: nat)
    requires k <= |polls| && forall j | 0 <= j < |polls| :: Stamps64(polls[j])
    ensures forall j | 0 <= j <= k :: Polled(s, polls + [p], j) == Polled(s, polls, j)
  {
    hide PollStep, Stamps64;
    if k > 0 { PolledSoFar(s, polls, p, k - 1); }
  }

  /* ---- what a subscriber sees ---- */

  ghost predicate NoRepeats(ms: seq<Message>)
  {
    forall i, j | 0 <= i < j < |ms| :: ms[i] != ms[j]
  }

  /** A replay that honours [watermark, max). */
  predicate InRange(s: Sub, p: Poll)
  {
    p.replay.Some? ==>
      forall i | 0 <= i < |p.replay.value| :: s.watermark <= p.replay.value[i].time < UINT64_MAX
  }

  ghost predicate RepeatsNothing(p: Poll) { p.replay.Some? ==> NoRepeats(p.replay.value) }

  /** Stamps never went back, and all lie below the watermark. */
  ghost predicate InOrder(s: Sub)
  {
    Sorted(s.delivered) && forall i | 0 <= i < |s.delivered| :: s.delivered[i].time < s.watermark
  }

  lemma NoRepeatsIsMultiset(ms: seq<Message>)
    ensures NoRepeats(ms) <==> forall m | m in ms :: multiset(ms)[m] == 1
    decreases |ms|
  {
    if ms != [] {
      var init, last := ms[..|ms| - 1], ms[|ms| - 1];
      NoRepeatsIsMultiset(init);
      assert ms == init + [last];
      if NoRepeats(ms) {
        assert NoRepeats(init) && last !in init;
        forall m | m in ms ensures multiset(ms)[m] == 1 {
          assert multiset(ms)[m] == multiset(init)[m] + multiset([last])[m];
        }
      }
      if forall m | m in ms :: multiset(ms)[m] == 1 {
        forall m | m in init ensures multiset(init)[m] == 1 {
          assert m in ms;
          assert multiset(ms)[m] >= multiset(init)[m];
        }
        assert multiset(ms)[last] == multiset(init)[last] + 1;
        assert NoRepeats(init);
      }
    }
  }

  /** Sorting changes neither the range nor the repeats of an answer. */
  lemma SortedAnswer(s: Sub, used: Poll, p: Poll)
    requires Sorts(used, p) && InRange(s, p)
    ensures InRange(s, used) && (used.replay.Some? ==> Sorted(used.replay.value))
    ensures RepeatsNothing(p) ==> RepeatsNothing(used)
  {
    if p.replay.Some? {
      var a, b := used.replay.value, p.replay.value;
      NoRepeatsIsMultiset(b);
      forall i | 0 <= i < |a| ensures a[i] in b { InBoth(a, b, a[i]); }
      NoRepeatsIsMultiset(a);
    }
  }

  /** A poll keeps the subscriber's guarantees; a failed or partial replay leaves the watermark and
      the deliveries alone; and without a stop request every message it got is handed on, and the
      watermark stands just past the newest. */
  lemma PollKeeps(s: Sub, p: Poll)
    requires InOrder(s) && InRange(s, p) && Stamps64(p) && (p.replay.Some? ==> Sorted(p.replay.value))
    ensures InOrder(PollStep(s, p)) && s.watermark <= PollStep(s, p).watermark
    ensures NoRepeats(s.delivered) && RepeatsNothing(p) ==> NoRepeats(PollStep(s, p).delivered)
    ensures p.replay.None? ==> PollStep(s, p).watermark == s.watermark && PollStep(s, p).delivered == s.delivered
    ensures p.replay.Some? && p.stopAfter.None? ==>
              PollStep(s, p).delivered == s.delivered + p.replay.value &&
              PollStep(s, p).watermark == Past(p.replay.value, s.watermark)
  {
    hide NotBefore, MaxSeen, InOrder, Seen, PollStep;
    PollStepIs(s, p);
    StopChangesNothing(s, p.stopAfter.Some?);
    if p.replay.Some? {
      if p.replay.value == [] {
        assert s.delivered + [] == s.delivered;
      } else {
        var seen := Seen(p, p.replay.value);
        SeenIsPrefix(p, p.replay.value);
        NotBeforeKeepsAll(seen, s.watermark);
        HandedOn(s, seen, PollStep(s, p));
      }
    }
  }

  /** Just past the last of these stamps. */
  function Past(messages: seq<Message>, watermark: nat): nat
  {
    if messages == [] then watermark else messages[|messages| - 1].time + 1
  }

  lemma StopChangesNothing(s: Sub, stopped: bool)
    requires InOrder(s)
    ensures InOrder(s.(stopped := stopped))
  {
  }

  lemma HandedOn(s: Sub, seen: seq<Message>, t: Sub)
    requires InOrder(s) && Sorted(seen)
    requires forall i | 0 <= i < |seen| :: s.watermark <= seen[i].time < UINT64_MAX
    requires t.delivered == s.delivered + seen
    requires var top := MaxSeen(seen, s.watermark); t.watermark == if top == UINT64_MAX then s.watermark else top + 1
    ensures InOrder(t) && s.watermark <= t.watermark
    ensures seen != [] ==> t.watermark == Past(seen, s.watermark)
    ensures NoRepeats(s.delivered) && NoRepeats(seen) ==> NoRepeats(t.delivered)
  {
    MaxIsAStamp(seen, s.watermark);
    if seen != [] {
      assert s.watermark <= seen[0].time < UINT64_MAX;
      assert MaxSeen(seen, s.watermark) < UINT64_MAX;
    }
  }

  /** A stop request that comes after n messages of a poll's sorted answer leaves exactly those n delivered,
      in order, and the watermark just past the last of them. */
  lemma StoppedPollDelivers(s: Sub, p: Poll, n: nat)
    requires InOrder(s) && InRange(s, p) && Stamps64(p) && p.replay.Some? && Sorted(p.replay.value)
    requires p.stopAfter == Some(n) && 0 < n <= |p.replay.value|
    ensures PollStep(s, p) == Sub(Past(p.replay.value[..n], s.watermark), true, s.delivered + p.replay.value[..n])
  {
    hide NotBefore, MaxSeen, InOrder, PollStep;
    PollStepIs(s, p);
    var first := p.replay.value[..n];
    assert n == |p.replay.value| ==> first == p.replay.value;
    NotBeforeKeepsAll(first, s.watermark);
    HandedOn(s, first, PollStep(s, p));
  }

  /** Polls whose replays keep to their range, sorted one way or another. */
  ghost predicate RangedRun(s: Sub, used: seq<Poll>, polls: seq<Poll>, k: nat)
  {
    k <= |used| && k <= |polls| &&
    (forall j | 0 <= j < k :: Stamps64(used[j]) && Sorts(used[j], polls[j])) &&
    (forall j | 0 <= j < k :: InRange(Polled(s, used, j), polls[j]))
  }

  /** Over any run of polls stamps and watermark never go back, and if no replay repeats a message
      within one answer, no message is delivered twice. */
  lemma {:induction false} SubscriberSeesEachOnce(s: Sub, used: seq<Poll>, polls: seq<Poll>, k: nat)
    requires InOrder(s) && RangedRun(s, used, polls, k)
    ensures InOrder(Polled(s, used, k)) && s.watermark <= Polled(s, used, k).watermark
    ensures s.delivered <= Polled(s, used, k).delivered
    ensures NoRepeats(s.delivered) && (forall j | 0 <= j < k :: RepeatsNothing(polls[j])) ==>
              NoRepeats(Polled(s, used, k).delivered)
  {
    hide PollStep, InOrder, InRange, Sorts, Stamps64, NoRepeats, RepeatsNothing;
    if k > 0 {
      var before, p := Polled(s, used, k - 1), used[k - 1];
      SubscriberSeesEachOnce(s, used, polls, k - 1);
      SortedAnswer(before, p, polls[k - 1]);
      PollKeeps(before, p);
      PollExtends(before, p);
    }
  }

  lemma PollExtends(s: Sub, p: Poll)
    requires Stamps64(p)
    ensures s.delivered <= PollStep(s, p).delivered
  {
  }

  /** What the successful replays among the first k returned, in the order it came in. */
  function Returned(polls: seq<Poll>, k: nat): seq<Message>
    requires k <= |polls|
  {
    if k == 0 then []
    else Returned(polls, k - 1) + (if polls[k - 1].replay.Some? then polls[k - 1].replay.value else [])
  }

  /** Until a stop request, what was delivered is exactly what the successful replays returned, sorted,
      and nothing among equal stamps is lost or doubled by however they were arranged. */
  lemma {:induction false} NothingReturnedIsDropped(s: Sub, used: seq<Poll>, polls: seq<Poll>, k: nat)
    requires InOrder(s) && RangedRun(s, used, polls, k) && forall j | 0 <= j < k :: polls[j].stopAfter.None?
    ensures InOrder(Polled(s, used, k))
    ensures s.delivered <= Polled(s, used, k).delivered
    ensures multiset(Polled(s, used, k).delivered) == multiset(s.delivered) + multiset(Returned(polls, k))
  {
    hide PollStep, InOrder, InRange, Stamps64;
    SubscriberSeesEachOnce(s, used, polls, k);
    if k > 0 {
      var before, p := Polled(s, used, k - 1), used[k - 1];
      NothingReturnedIsDropped(s, used, polls, k - 1);
      SortedAnswer(before, p, polls[k - 1]);
      PollKeeps(before, p);
      if p.replay.Some? {
        MoreHandedOn(before.delivered, p.replay.value, s.delivered, Returned(polls, k - 1), polls[k - 1].replay.value);
      } else {
        assert Returned(polls, k) == Returned(polls, k - 1);
      }
    }
  }

  lemma MoreHandedOn(before: seq<Message>, arranged: seq<Message>, first: seq<Message>, returned: seq<Message>,
                     came: seq<Message>)
    requires multiset(before) == multiset(first) + multiset(returned) && multiset(arranged) == multiset(came)
    ensures multiset(before + arranged) == multiset(first) + multiset(returned + came)
  {
  }

  /* ---- which messages are never seen ---- */

  /** Polls of a story that only grows: visible[j] is what of it the j-th replay can see, and a replay
      that succeeds returns what of that lies in its range. No stop is requested. */
  ghost predicate GrowingRun(s: Sub, used: seq<Poll>, polls: seq<Poll>, visible: seq<set<Message>>, k: nat)
  {
    RangedRun(s, used, polls, k) && k <= |visible| &&
    (forall j | 0 <= j < k :: polls[j].stopAfter.None?) &&
    (forall i, j | 0 <= i < j < k :: visible[i] <= visible[j]) &&
    (forall j, m | 0 <= j < k && polls[j].replay.Some? ::
       m in polls[j].replay.value <==> m in visible[j] && Polled(s, used, j).watermark <= m.time < UINT64_MAX)
  }

  lemma {:induction false} ReturnedMembers(polls: seq<Poll>, k: nat, m: Message)
    requires k <= |polls|
    ensures m in Returned(polls, k) <==>
              exists j :: 0 <= j < k && polls[j].replay.Some? && m in polls[j].replay.value
  {
    if k > 0 { ReturnedMembers(polls, k - 1, m); }
  }

  lemma {:induction false} WatermarkRises(s: Sub, used: seq<Poll>, polls: seq<Poll>, i: nat, j: nat)
    requires InOrder(s) && RangedRun(s, used, polls, j) && i <= j
    ensures Polled(s, used, i).watermark <= Polled(s, used, j).watermark
  {
    hide PollStep, InOrder, InRange, Sorts, Stamps64;
    if i < j {
      WatermarkRises(s, used, polls, i, j - 1);
      SubscriberSeesEachOnce(s, used, polls, j - 1);
      SortedAnswer(Polled(s, used, j - 1), used[j - 1], polls[j - 1]);
      PollKeeps(Polled(s, used, j - 1), used[j - 1]);
    }
  }

  /** A message that the j-th successful replay is the first to be able to see is delivered exactly when
      it is not stamped before the watermark of that poll. */
  lemma SeenExactlyWhen(s: Sub, used: seq<Poll>, polls: seq<Poll>, visible: seq<set<Message>>, k: nat, j: nat,
                        m: Message)
    requires InOrder(s) && GrowingRun(s, used, polls, visible, k) && m !in s.delivered && m.time < UINT64_MAX
    requires j < k && polls[j].replay.Some? && m in visible[j]
    requires forall i | 0 <= i < j && polls[i].replay.Some? :: m !in visible[i]
    ensures m in Polled(s, used, k).delivered <==> m.time >= Polled(s, used, j).watermark
  {
    hide PollStep, InOrder, InRange, Sorts, Stamps64, Polled;
    NothingReturnedIsDropped(s, used, polls, k);
    ReturnedMembers(polls, k, m);
    InSum(Polled(s, used, k).delivered, s.delivered, Returned(polls, k), m);
    if i :| 0 <= i < k && polls[i].replay.Some? && m in polls[i].replay.value {
      WatermarkRises(s, used, polls, j, i);
    }
  }

  lemma InSum(all: seq<Message>, a: seq<Message>, b: seq<Message>, m: Message)
    requires multiset(all) == multiset(a) + multiset(b)
    ensures m in all <==> m in a || m in b
  {
    assert m in multiset(all) <==> m in multiset(a) + multiset(b);
  }

  /** A new subscription's watermark is where it started, or just past the newest message delivered. */
  lemma {:induction false} WatermarkIsPastTheNewest(s: Sub, used: seq<Poll>, polls: seq<Poll>, k: nat)
    requires s.delivered == [] && RangedRun(s, used, polls, k) && forall j | 0 <= j < k :: polls[j].stopAfter.None?
    ensures Polled(s, used, k).watermark == Past(Polled(s, used, k).delivered, s.watermark)
  {
    hide PollStep, InRange, Stamps64, InOrder;
    assert InOrder(s) by { NothingIsInOrder(s); }
    if k > 0 {
      var before, p := Polled(s, used, k - 1), used[k - 1];
      WatermarkIsPastTheNewest(s, used, polls, k - 1);
      SubscriberSeesEachOnce(s, used, polls, k - 1);
      SortedAnswer(before, p, polls[k - 1]);
      PollKeeps(before, p);
    }
  }

  lemma NothingIsInOrder(s: Sub)
    requires s.delivered == []
    ensures InOrder(s)
  {
  }

  /** In the subscriber's terms: a message is delivered exactly when it is stamped no earlier than the
      subscription's start and later than everything delivered before it could be seen. So one that
      becomes visible late, with the stamp of a delivered message or an earlier one, is never seen. */
  lemma LateMessagesAreSkipped(s: Sub, used: seq<Poll>, polls: seq<Poll>, visible: seq<set<Message>>, k: nat, j: nat,
                               m: Message)
    requires s.delivered == [] && GrowingRun(s, used, polls, visible, k) && m.time < UINT64_MAX
    requires j < k && polls[j].replay.Some? && m in visible[j]
    requires forall i | 0 <= i < j && polls[i].replay.Some? :: m !in visible[i]
    ensures m in Polled(s, used, k).delivered <==>
              s.watermark <= m.time && forall x | x in Polled(s, used, j).delivered :: x.time < m.time
  {
    hide PollStep, InRange, Sorts, Stamps64, Polled;
    SeenExactlyWhen(s, used, polls, visible, k, j, m);
    WatermarkIsPastTheNewest(s, used, polls, j);
    SubscriberSeesEachOnce(s, used, polls, j);
    var before := Polled(s, used, j);
    if before.delivered != [] { assert before.delivered[|before.delivered| - 1] in before.delivered; }
  }

  /** A message stamped UINT64_MAX is outside every honest answer: it would leave the watermark where
      it is and come again with the next poll. */
  lemma LastStampComesAgain(s: Sub)
    requires !s.stopped
    ensures var m := Stamped(UINT64_MAX, "m");
            var p := Poll(Some([m]), None);
            PollStep(s, p) == s.(delivered := s.delivered + [m])
  {
    var m := Stamped(UINT64_MAX, "m");
    assert [m][..0] == [];
    assert NotBefore([m], s.watermark) == [m];
    assert MaxSeen([m], s.watermark) == UINT64_MAX;
  }
}
