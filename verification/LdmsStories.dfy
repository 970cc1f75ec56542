/** Which story a sample is sent to: one per producer and schema, as far as the names allow it. */
module LdmsStories {
  import opened Text
  import opened LdmsRegistry

  /* ---- one schema ---- */

  /** Letters, digits and '-': characters of a producer's name that no other stands for. */
  predicate Plain(c: char) { 'a' <= c <= 'z' || 'A' <= c <= 'Z' || '0' <= c <= '9' || c == '-' }

  /** The producers' names agree but for characters of which each is '_' or none a story's name keeps. */
  predicate SameOnceFolded(a: string, b: string)
  {
    |a| == |b| && forall i | 0 <= i < |a| :: a[i] == b[i] || (!Plain(a[i]) && !Plain(b[i]))
  }

  /** The story's name is the schema's and, if there is one, the producer's behind a '_'. */
  lemma StoryNameReads(schema: string, producer: string)
    ensures var name := StoryName(schema, producer);
            schema <= name && (producer == "" ==> name == schema) &&
            (producer != "" ==>
               |name| == |schema| + 1 + |producer| && name[|schema|] == '_' &&
               forall k | |schema| < k < |name| ::
                 var c := producer[k - |schema| - 1]; name[k] == if Plain(c) then c else '_')
  {
  }

  /** Under one schema two producers share a story's name exactly when they agree once folded. */
  lemma SameNameExactlyWhen(schema: string, p1: string, p2: string)
    ensures StoryName(schema, p1) == StoryName(schema, p2) <==> SameOnceFolded(p1, p2)
  {
    hide StoryName;
    StoryNameReads(schema, p1);
    StoryNameReads(schema, p2);
    var n1, n2 := StoryName(schema, p1), StoryName(schema, p2);
    if n1 == n2 {
      forall i | 0 <= i < |p1| ensures p1[i] == p2[i] || (!Plain(p1[i]) && !Plain(p2[i])) {
        var k := |schema| + 1 + i;
        assert n1[k] == n2[k];
        assert p1[k - |schema| - 1] == p1[i] && p2[k - |schema| - 1] == p2[i];
      }
    }
    if SameOnceFolded(p1, p2) {
      assert |n1| == |n2|;
      forall k | 0 <= k < |n1| ensures n1[k] == n2[k] {
        if k < |schema| {
          assert n1[k] == n1[..|schema|][k] && n2[k] == n2[..|schema|][k];
        } else if k > |schema| {
          var i := k - |schema| - 1;
          assert p1[i] == p2[i] || (!Plain(p1[i]) && !Plain(p2[i]));
        }
      }
    }
  }

  /* ---- two schemas ---- */

  /** b is a, a '_' and characters that a story's name keeps. */
  predicate Extends(a: string, b: string)
  {
    a + "_" <= b && forall i | |a| < i < |b| :: Plain(b[i]) || b[i] == '_'
  }

  lemma LongerExtends(a: string, p: string, b: string, q: string)
    requires |a| < |b| && StoryName(a, p) == StoryName(b, q)
    ensures Extends(a, b)
  {
    hide StoryName;
    StoryNameReads(a, p);
    StoryNameReads(b, q);
    var n := StoryName(a, p);
    assert b == n[..|b|];
    assert (a + "_") == n[..|a| + 1];
    forall i | |a| < i < |b| ensures Plain(b[i]) || b[i] == '_' { assert n[i] == b[i]; }
  }

  /** Producers under which a schema and one that extends it meet. */
  lemma ExtensionMeets(a: string, b: string) returns (p: string, q: string)
    requires Extends(a, b)
    ensures StoryName(a, p) == StoryName(b, q)
  {
    hide StoryName;
    p, q := b[|a| + 1..] + "_x", "x";
    StoryNameReads(a, p);
    StoryNameReads(b, q);
    var n1, n2 := StoryName(a, p), StoryName(b, q);
    assert b == a + "_" + b[|a| + 1..];
    assert forall k | |a| < k < |b| :: p[k - |a| - 1] == b[k];
  }

  /** Different schemas of one container have a story's name in common exactly when one extends the
      other: then "one story per producer per schema" does not hold of them. */
  lemma SchemasMeetExactlyWhen(a: string, b: string)
    requires a != b
    ensures (exists p, q :: StoryName(a, p) == StoryName(b, q)) <==> Extends(a, b) || Extends(b, a)
  {
    hide StoryName, Extends;
    if p, q :| StoryName(a, p) == StoryName(b, q) {
      if |a| < |b| {
        LongerExtends(a, p, b, q);
      } else if |b| < |a| {
        LongerExtends(b, q, a, p);
      } else {
        StoryNameReads(a, p);
        StoryNameReads(b, q);
        assert false;
      }
    }
    if Extends(a, b) { var p, q := ExtensionMeets(a, b); }
    if Extends(b, a) { var q, p := ExtensionMeets(b, a); assert StoryName(a, p) == StoryName(b, q); }
  }

  /* ---- runs ---- */

  /** A sample through store h, and the story it was sent to. */
  ghost predicate Sends(s: State, h: Handle, producer: string, e: AcquireEnv, logged: bool, t: State, p: Ptr)
  {
    Pointers(s) && h in s.stores && StoreSampleStep(s, h, producer, e, logged).0 == t &&
    StoreSampleStep(s, h, producer, e, logged).2 == Some(p)
  }

  predicate Closes(step: Step, h: Handle) { (step.CloseOne? || step.CloseDone?) && step.h == h }

  /** These steps lead from s to t, and none of them closes store h. */
  ghost predicate RunsOpen(steps: seq<Step>, h: Handle, s: State, t: State)
  {
    if steps == [] then t == s
    else
      var last := steps[|steps| - 1];
      exists r :: RunsOpen(steps[..|steps| - 1], h, s, r) && Next(r, last, t) && !Closes(last, h)
  }

  /** Store h is the same one in t as in s, with at least the stories it had. */
  predicate Continues(s: State, t: State, h: Handle)
    requires h in s.stores
  {
    h in t.stores && t.stores[h].chronicle == s.stores[h].chronicle && t.stores[h].schema == s.stores[h].schema &&
    forall n | n in s.stores[h].byProducer ::
      n in t.stores[h].byProducer && t.stores[h].byProducer[n] == s.stores[h].byProducer[n]
  }

  lemma StepContinues(s: State, step: Step, t: State, h: Handle)
    requires Inv(s) && Next(s, step, t) && h in s.stores && !Closes(step, h)
    ensures Continues(s, t, h)
  {
    hide Key, StoryName, Registered, StoresOk, Counted, Balanced, Pointers;
    KnowPointers(s);
    match step {
      case StoreSample(g, producer, e, logged) => SampleContinues(s, g, producer, e, logged, h);
      case CloseOne(g, story) => CloseContinues(s, g, story, h);
      case _ =>
    }
  }

  lemma SampleContinues(s: State, g: Handle, producer: string, e: AcquireEnv, logged: bool, h: Handle)
    requires Pointers(s) && g in s.stores && h in s.stores
    ensures Continues(s, StoreSampleStep(s, g, producer, e, logged).0, h)
  {
    hide Key, StoryName;
  }

  lemma CloseContinues(s: State, g: Handle, story: string, h: Handle)
    requires Pointers(s) && g in s.stores && story in s.stores[g].byProducer && h in s.stores && g != h
    ensures Continues(s, CloseOneStep(s, g, story), h)
  {
    hide ReleaseStory;
    ReleaseTouches(s, s.stores[g].byProducer[story]);
  }

  lemma {:induction false} RunContinues(steps: seq<Step>, h: Handle, s: State, t: State)
    requires Inv(s) && RunsOpen(steps, h, s, t) && h in s.stores
    ensures Inv(t) && Continues(s, t, h)
    decreases |steps|
  {
    hide Inv, Next;
    if steps != [] {
      var last := steps[|steps| - 1];
      var r :| RunsOpen(steps[..|steps| - 1], h, s, r) && Next(r, last, t) && !Closes(last, h);
      RunContinues(steps[..|steps| - 1], h, s, r);
      StepKeeps(r, last, t);
      StepContinues(r, last, t, h);
    }
  }

  /** A sample goes to the story registered under its container and its name, and the store keeps it. */
  lemma SampleGoesToItsStory(s: State, h: Handle, producer: string, e: AcquireEnv, logged: bool, t: State, p: Ptr)
    requires Inv(s) && Sends(s, h, producer, e, logged, t, p)
    ensures Inv(t) && Continues(s, t, h)
    ensures var name := StoryName(s.stores[h].schema, producer);
            name in t.stores[h].byProducer && t.stores[h].byProducer[name] == p &&
            p in t.heap && t.heap[p].key == Key(s.stores[h].chronicle, name)
  {
    hide Key, StoryName, Registered, Counted, Balanced, Pointers;
    KnowPointers(s);
    StepKeeps(s, StoreSample(h, producer, e, logged), t);
    SampleContinues(s, h, producer, e, logged, h);
    SampleIsKept(s, h, producer, e, logged);
  }

  lemma SampleIsKept(s: State, h: Handle, producer: string, e: AcquireEnv, logged: bool)
    requires Pointers(s) && h in s.stores
    ensures var (t, _, p) := StoreSampleStep(s, h, producer, e, logged);
            var name := StoryName(s.stores[h].schema, producer);
            p.Some? ==> h in t.stores && name in t.stores[h].byProducer && t.stores[h].byProducer[name] == p.value
  {
    hide Key, StoryName;
  }

  /** OK exactly when a story was had and `log_event` answered with a timestamp. A sample that finds no
      story leaves every store and every story as it was, with nothing more held at the client. */
  lemma OkMeansLogged(s: State, h: Handle, producer: string, e: AcquireEnv, logged: bool, c: string, n: string)
    requires Pointers(s) && h in s.stores
    ensures var (t, code, p) := StoreSampleStep(s, h, producer, e, logged);
            (code == OK <==> p.Some? && logged) &&
            (code == EINVAL <==> !s.connected && StoryName(s.stores[h].schema, producer) !in s.stores[h].byProducer) &&
            (p.None? ==> t == s.(calls := t.calls) && Outstanding(t.calls, c, n) == Outstanding(s.calls, c, n))
  {
    hide Key, StoryName, Outstanding;
    var st := s.stores[h];
    var name := StoryName(st.schema, producer);
    OutstandingSnoc(s.calls, Acquire(st.chronicle, name), c, n);
    OutstandingSnoc(s.calls + [Acquire(st.chronicle, name)], Release(st.chronicle, name), c, n);
    assert s.calls + [Acquire(st.chronicle, name)] + [Release(st.chronicle, name)] ==
           s.calls + [Acquire(st.chronicle, name), Release(st.chronicle, name)];
  }

  /** In every run, two samples through one store go to the same story exactly when their producers
      agree once folded, whatever happens between them short of closing the store. */
  lemma SameStoryExactlyWhen(steps: seq<Step>, s: State, h: Handle,
                             producer1: string, e1: AcquireEnv, logged1: bool, t: State, p1: Ptr,
                             between: seq<Step>, u: State,
                             producer2: string, e2: AcquireEnv, logged2: bool, v: State, p2: Ptr)
    requires Reaches(steps, s) && Sends(s, h, producer1, e1, logged1, t, p1)
    requires RunsOpen(between, h, t, u) && Sends(u, h, producer2, e2, logged2, v, p2)
    ensures p1 == p2 <==> SameOnceFolded(producer1, producer2)
  {
    hide Key, StoryName, Reaches, RunsOpen, Registered, Counted, Balanced, SameOnceFolded, StoreSampleStep;
    RegistryIsSound(steps, s);
    SampleGoesToItsStory(s, h, producer1, e1, logged1, t, p1);
    RunContinues(between, h, t, u);
    SampleGoesToItsStory(u, h, producer2, e2, logged2, v, p2);
    var c, schema := s.stores[h].chronicle, s.stores[h].schema;
    var n1, n2 := StoryName(schema, producer1), StoryName(schema, producer2);
    assert v.stores[h].byProducer[n1] == p1;
    if p1 == p2 { StoryOfKey(c, n1, n2); }
    SameNameExactlyWhen(schema, producer1, producer2);
  }

  /* ---- acquiring and detaching ---- */

  /** A story is had exactly when it is registered already or the client makes its container, acquires it
      and there is memory for it; and one that was registered costs the client nothing. */
  lemma StoryIsHadExactlyWhen(s: State, chronicle: string, story: string, e: AcquireEnv)
    requires Pointers(s)
    ensures var (t, p) := AcquireStory(s, chronicle, story, e);
            var known := chronicle + "/" + story in s.stories;
            (p.Some? <==> known || (e.chronicleOk && e.acquired && e.haveMemory)) &&
            (known ==> p == Some(s.stories[chronicle + "/" + story]) && t.calls == s.calls) &&
            (!known && p.Some? ==> t.calls == s.calls + [Acquire(chronicle, story)])
  {
  }

  /** The client is let go of exactly when the last instance detaches. */
  lemma DisconnectsExactlyWhen(s: State, t: State)
    requires Pointers(s) && Next(s, Detach, t)
    ensures t.connected <==> s.connected && s.instances > 1
    ensures t.instances == if s.instances == 0 then 0 else s.instances - 1
  {
  }

  /** In every run a store is open only while the client is connected, so no sample of an open store is
      turned away for want of a connection. */
  lemma {:induction false} OpenStoresMeanConnected(steps: seq<Step>, s: State)
    requires Reaches(steps, s)
    ensures s.stores != map[] ==> s.connected
    decreases |steps|
  {
    hide Next;
    if steps != [] {
      var last := steps[|steps| - 1];
      var r :| Reaches(steps[..|steps| - 1], r) && Next(r, last, s);
      OpenStoresMeanConnected(steps[..|steps| - 1], r);
      RegistryIsSound(steps[..|steps| - 1], r);
      StaysConnected(r, last, s);
    }
  }

  lemma StaysConnected(s: State, step: Step, t: State)
    requires Pointers(s) && Next(s, step, t) && (s.stores != map[] ==> s.connected)
    ensures t.stores != map[] ==> t.connected
  {
    hide Key, StoryName, ReleaseStory;
    match step {
      case CloseOne(h, story) => ReleaseTouches(s, s.stores[h].byProducer[story]);
      case StoreSample(h, producer, e, logged) => SampleKeepsConnection(s, h, producer, e, logged);
      case _ =>
    }
  }

  lemma SampleKeepsConnection(s: State, h: Handle, producer: string, e: AcquireEnv, logged: bool)
    requires Pointers(s) && h in s.stores
    ensures StoreSampleStep(s, h, producer, e, logged).0.connected == s.connected
  {
    hide Key, StoryName;
  }

  /** Attaches less detaches. */
  function Instances(steps: seq<Step>): int
  {
    if steps == [] then 0
    else
      var last := steps[|steps| - 1];
      Instances(steps[..|steps| - 1]) + (if last.Attach? then 1 else if last.Detach? then -1 else 0)
  }

  /** As long as nobody detaches that has not attached, the count is that of the instances there are. */
  lemma {:induction false} InstancesAreCounted(steps: seq<Step>, s: State)
    requires Reaches(steps, s) && forall k | 0 <= k <= |steps| :: Instances(steps[..k]) >= 0
    ensures s.instances == Instances(steps)
    decreases |steps|
  {
    hide Next;
    assert steps[..|steps|] == steps;
    if steps != [] {
      var init, last := steps[..|steps| - 1], steps[|steps| - 1];
      var r :| Reaches(init, r) && Next(r, last, s);
      forall k | 0 <= k <= |init| ensures Instances(init[..k]) >= 0 { assert init[..k] == steps[..k]; }
      InstancesAreCounted(init, r);
      RegistryIsSound(init, r);
      OneStepCounted(r, last, s);
    }
  }

  lemma OneStepCounted(s: State, step: Step, t: State)
    requires Pointers(s) && Next(s, step, t)
    ensures t.instances == match step
                           case Attach => s.instances + 1
                           case Detach => if s.instances == 0 then 0 else s.instances - 1
                           case _ => s.instances
  {
    hide Key, StoryName, ReleaseStory;
    match step {
      case CloseOne(h, story) => ReleaseTouches(s, s.stores[h].byProducer[story]);
      case StoreSample(h, producer, e, logged) => SampleKeepsInstances(s, h, producer, e, logged);
      case _ =>
    }
  }

  lemma SampleKeepsInstances(s: State, h: Handle, producer: string, e: AcquireEnv, logged: bool)
    requires Pointers(s) && h in s.stores
    ensures StoreSampleStep(s, h, producer, e, logged).0.instances == s.instances
  {
    hide Key, StoryName;
  }
}
