/** The LDMS bridge's registry of shared, reference-counted stories. */
module LdmsRegistry {
  import opened Text

  /** A `Story*`: what it points to is in `heap` while it is live. */
  type Ptr = nat

  type Handle = nat

  datatype Story = Story(key: string, chronicle: string, story: string, refs: nat)

  /** A `StoreHandle`: one story per producer name seen so far. */
  datatype Store = Store(chronicle: string, schema: string, byProducer: map<string, Ptr>)

  /** What the ChronoLog client was asked, successful acquisitions only. */
  datatype Call = Acquire(chronicle: string, story: string) | Release(chronicle: string, story: string)

  datatype State = State(connected: bool, instances: nat, heap: map<Ptr, Story>, stories: map<string, Ptr>,
                         stores: map<Handle, Store>, next: Ptr, calls: seq<Call>)

  const INIT := State(false, 0, map[], map[], map[], 0, [])

  datatype Code = OK | EINVAL | EIO

  /** How the client and the allocator treat one acquisition. */
  datatype AcquireEnv = AcquireEnv(chronicleOk: bool, acquired: bool, haveMemory: bool)

  function Key(chronicle: string, story: string): string { chronicle + "/" + story }

  /* ---- names ---- */

  function SanitizeChar(c: char): char
  {
    if 'a' <= c <= 'z' || 'A' <= c <= 'Z' || '0' <= c <= '9' || c == '_' || c == '-' then c else '_'
  }

  function Sanitize(producer: string): (r: string)
    ensures |r| == |producer| && '/' !in r
  {
    seq(|producer|, i requires 0 <= i < |producer| => SanitizeChar(producer[i]))
  }

  function StoryName(schema: string, producer: string): string
  {
    if Sanitize(producer) == "" then schema else schema + "_" + Sanitize(producer)
  }

  /* ---- operations under g_shared.lock ---- */

  /** `acquire_story_locked`: the pointer, or None with nothing kept. */
  function AcquireStory(s: State, chronicle: string, story: string, e: AcquireEnv): (State, Option<Ptr>)
    requires Key(chronicle, story) in s.stories ==> s.stories[Key(chronicle, story)] in s.heap
  {
    var key := Key(chronicle, story);
    if key in s.stories then
      var p := s.stories[key];
      (s.(heap := s.heap[p := s.heap[p].(refs := s.heap[p].refs + 1)]), Some(p))
    else if !e.chronicleOk || !e.acquired then (s, None)
    else if !e.haveMemory then (s.(calls := s.calls + [Acquire(chronicle, story), Release(chronicle, story)]), None)
    else
      (s.(heap := s.heap[s.next := Story(key, chronicle, story, 1)], stories := s.stories[key := s.next],
          next := s.next + 1, calls := s.calls + [Acquire(chronicle, story)]), Some(s.next))
  }

  /** `release_story_locked`. */
  function ReleaseStory(s: State, p: Ptr): State
    requires p in s.heap
  {
    var x := s.heap[p];
    if x.refs > 1 then s.(heap := s.heap[p := x.(refs := x.refs - 1)])
    else
      s.(calls := if s.connected then s.calls + [Release(x.chronicle, x.story)] else s.calls,
         stories := s.stories - {x.key}, heap := s.heap - {p})
  }

  /* ---- steps ---- */

  datatype Step =
    | Connect
    | OpenStore(h: Handle, chronicle: string, schema: string, chronicleOk: bool, haveMemory: bool)
    | StoreSample(h: Handle, producer: string, env: AcquireEnv, logged: bool)
    | CloseOne(h: Handle, story: string)
    | CloseDone(h: Handle)
    | Attach
    | Detach

  /** The bridge is used as its callers promise: handles used while open, and every store closed before
      the last instance detaches. A close drops the store's references one by one and then deletes it. */
  predicate Enabled(s: State, step: Step)
  {
    match step
    case OpenStore(h, _, _, _, _) => h !in s.stores
    case StoreSample(h, _, _, _) => h in s.stores
    case CloseOne(h, story) => h in s.stores && story in s.stores[h].byProducer
    case CloseDone(h) => h in s.stores && s.stores[h].byProducer == map[]
    case Detach => s.instances > 1 || s.stores == map[]
    case _ => true
  }

  /** The new state, the answer, and the story the sample was sent to. `logged`: `log_event` answered
      with a timestamp. */
  function StoreSampleStep(s: State, h: Handle, producer: string, e: AcquireEnv, logged: bool)
    : (State, Code, Option<Ptr>)
    requires h in s.stores && forall k | k in s.stories :: s.stories[k] in s.heap
  {
    var st := s.stores[h];
    var name := StoryName(st.schema, producer);
    var answer := if logged then OK else EIO;
    if name in st.byProducer then (s, answer, Some(st.byProducer[name]))
    else if !s.connected then (s, EINVAL, None)
    else
      var (t, p) := AcquireStory(s, st.chronicle, name, e);
      if p.None? then (t, EIO, None)
      else (t.(stores := t.stores[h := st.(byProducer := st.byProducer[name := p.value])]), answer, p)
  }

  function CloseOneStep(s: State, h: Handle, story: string): State
    requires h in s.stores && story in s.stores[h].byProducer && s.stores[h].byProducer[story] in s.heap
  {
    var st := s.stores[h];
    var t := ReleaseStory(s, st.byProducer[story]);
    t.(stores := t.stores[h := st.(byProducer := st.byProducer - {story})])
  }

  function ReleaseOf(s: State, k: string): Call
    requires k in s.stories && s.stories[k] in s.heap
  {
    Release(s.heap[s.stories[k]].chronicle, s.heap[s.stories[k]].story)
  }

  /** `calls` releases the stories under `keys`, each once; in which order does not matter. */
  ghost predicate Releases(s: State, keys: set<string>, calls: seq<Call>)
    requires forall k | k in keys :: k in s.stories && s.stories[k] in s.heap
  {
    (forall c :: c in calls <==> exists k :: k in keys && c == ReleaseOf(s, k)) &&
    (forall i, j | 0 <= i < j < |calls| :: calls[i] != calls[j])
  }

  /** `clog_plugin_detach`: the last instance releases what is still registered and disconnects. */
  ghost predicate Detached(s: State, t: State)
    requires forall k | k in s.stories :: s.stories[k] in s.heap
  {
    var u := s.(instances := if s.instances > 0 then s.instances - 1 else 0);
    if s.instances > 1 || !s.connected then t == u
    else
      t == u.(connected := false, heap := map[], stories := map[], calls := t.calls) &&
      exists made :: t.calls == s.calls + made && Releases(s, s.stories.Keys, made)
  }

  /** A step. From a state with a dangling pointer it could lead anywhere; no run gets there. */
  ghost predicate Next(s: State, step: Step, t: State)
  {
    Enabled(s, step) && (Pointers(s) ==> Leads(s, step, t))
  }

  ghost predicate Leads(s: State, step: Step, t: State)
    requires Pointers(s) && Enabled(s, step)
  {
    match step
    case Connect => t == s.(connected := true)
    case OpenStore(h, chronicle, schema, ok, haveMemory) =>
      t == if s.connected && ok && haveMemory then s.(stores := s.stores[h := Store(chronicle, schema, map[])]) else s
    case StoreSample(h, producer, e, logged) => t == StoreSampleStep(s, h, producer, e, logged).0
    case CloseOne(h, story) => t == CloseOneStep(s, h, story)
    case CloseDone(h) => t == s.(stores := s.stores - {h})
    case Attach => t == s.(instances := s.instances + 1)
    case Detach => Detached(s, t)
  }

  /* ---- the invariant ---- */

  /** Every story pointer anywhere is live. */
  ghost predicate Pointers(s: State)
  {
    (forall k | k in s.stories :: s.stories[k] in s.heap) &&
    (forall h, n | h in s.stores && n in s.stores[h].byProducer :: s.stores[h].byProducer[n] in s.heap)
  }

  ghost predicate Registered(s: State)
  {
    (forall k | k in s.stories ::
       s.stories[k] in s.heap && var x := s.heap[s.stories[k]];
       x.key == k == Key(x.chronicle, x.story)) &&
    (forall p | p in s.heap :: p < s.next && s.heap[p].key in s.stories && s.stories[s.heap[p].key] == p) &&
    (!s.connected ==> s.stories == map[])
  }

  /** A handle's pointers are live, each to the story registered under its key. */
  ghost predicate StoresOk(s: State)
  {
    forall h, n | h in s.stores && n in s.stores[h].byProducer ::
      var p := s.stores[h].byProducer[n];
      p in s.heap && s.heap[p].key == Key(s.stores[h].chronicle, n)
  }

  /** The open handles that map to p. */
  ghost function Users(s: State, p: Ptr): set<Handle>
  {
    set h | h in s.stores && p in s.stores[h].byProducer.Values
  }

  ghost predicate Counted(s: State)
  {
    forall p | p in s.heap :: s.heap[p].refs == |Users(s, p)| > 0
  }

  /** Acquisitions of a story not yet matched by a release. */
  function Outstanding(calls: seq<Call>, chronicle: string, story: string): int
  {
    if calls == [] then 0
    else
      var last := calls[|calls| - 1];
      Outstanding(calls[..|calls| - 1], chronicle, story) +
      (if last == Acquire(chronicle, story) then 1 else if last == Release(chronicle, story) then -1 else 0)
  }

  /** This very story, not one with the same key, is registered. */
  predicate IsRegistered(s: State, chronicle: string, story: string)
  {
    var k := Key(chronicle, story);
    k in s.stories && s.stories[k] in s.heap &&
    s.heap[s.stories[k]].chronicle == chronicle && s.heap[s.stories[k]].story == story
  }

  ghost predicate Balanced(s: State)
  {
    forall c, n :: Outstanding(s.calls, c, n) == if IsRegistered(s, c, n) then 1 else 0
  }

  ghost predicate Inv(s: State)
  {
    Registered(s) && StoresOk(s) && Counted(s) && Balanced(s)
  }

  lemma InvPointers(s: State)
    requires Registered(s) && StoresOk(s)
    ensures Pointers(s)
  {
  }

  /* ---- names that collide ---- */

  /** One container's name, with a '/' behind it, begins the other's. */
  predicate Clash(c1: string, c2: string) { c1 + "/" <= c2 || c2 + "/" <= c1 }

  /** Within one container the key tells stories apart. */
  lemma StoryOfKey(c: string, s1: string, s2: string)
    requires Key(c, s1) == Key(c, s2)
    ensures s1 == s2
  {
    assert Key(c, s1)[|c| + 1..] == s1 && Key(c, s2)[|c| + 1..] == s2;
  }

  lemma LongerClashes(c1: string, s1: string, c2: string, s2: string)
    requires |c1| < |c2| && Key(c1, s1) == Key(c2, s2)
    ensures c1 + "/" <= c2
  {
    var k := Key(c1, s1);
    assert k[..|c1| + 1] == c1 + "/" && k[..|c2|] == c2;
    assert c2[..|c1| + 1] == k[..|c1| + 1];
  }

  /** Two containers that do not clash have no key in common. */
  lemma KeyInjective(c1: string, s1: string, c2: string, s2: string)
    requires !Clash(c1, c2) && Key(c1, s1) == Key(c2, s2)
    ensures c1 == c2 && s1 == s2
  {
    if |c1| < |c2| {
      LongerClashes(c1, s1, c2, s2);
    } else if |c2| < |c1| {
      LongerClashes(c2, s2, c1, s1);
    } else {
      assert Key(c1, s1)[..|c1|] == c1 && Key(c2, s2)[..|c2|] == c2;
      StoryOfKey(c1, s1, s2);
    }
  }

  /** Story names under which a container and one it begins collide. */
  lemma ClashCollides(c1: string, c2: string) returns (s1: string, s2: string)
    requires c1 + "/" <= c2
    ensures Key(c1, s1) == Key(c2, s2)
  {
    s1, s2 := c2[|c1| + 1..] + "/", "";
    assert c2 == c1 + "/" + c2[|c1| + 1..];
    assert Key(c1, s1) == c2 + "/" + "";
  }

  /** Different containers can share a registry entry exactly when their names clash. */
  lemma KeysCollideExactly(c1: string, c2: string)
    requires c1 != c2
    ensures (exists s1, s2 :: Key(c1, s1) == Key(c2, s2)) <==> Clash(c1, c2)
  {
    if Clash(c1, c2) {
      var s1, s2;
      if c1 + "/" <= c2 { s1, s2 := ClashCollides(c1, c2); } else { s2, s1 := ClashCollides(c2, c1); }
      assert Key(c1, s1) == Key(c2, s2);
    } else {
      forall s1, s2 ensures Key(c1, s1) != Key(c2, s2) {
        if Key(c1, s1) == Key(c2, s2) { KeyInjective(c1, s1, c2, s2); }
      }
    }
  }

  lemma OutstandingSnoc(calls: seq<Call>, call: Call, c: string, n: string)
    ensures Outstanding(calls + [call], c, n) ==
            Outstanding(calls, c, n) + (if call == Acquire(c, n) then 1 else if call == Release(c, n) then -1 else 0)
  {
    assert (calls + [call])[..|calls|] == calls;
  }

  /* ---- steps keep it ---- */

  /** The same stories are registered at the same pointers; only counts may differ. */
  ghost predicate SameRegistry(s: State, t: State)
  {
    t.stories == s.stories && t.heap.Keys == s.heap.Keys && t.next == s.next && (s.connected ==> t.connected) &&
    forall p | p in s.heap :: t.heap[p] == s.heap[p].(refs := t.heap[p].refs)
  }

  lemma RegistryUntouched(s: State, t: State)
    requires Registered(s) && Balanced(s) && SameRegistry(s, t)
    requires forall c, n :: Outstanding(t.calls, c, n) == Outstanding(s.calls, c, n)
    ensures Registered(t) && Balanced(t)
  {
    hide Outstanding, Key;
    forall c, n ensures IsRegistered(t, c, n) == IsRegistered(s, c, n) {}
  }

  /** Handle h, and only it, gets one more entry. */
  predicate EntryAdded(s: State, t: State, h: Handle, name: string, p: Ptr)
  {
    h in s.stores && name !in s.stores[h].byProducer &&
    t.stores == s.stores[h := s.stores[h].(byProducer := s.stores[h].byProducer[name := p])]
  }

  lemma StoresWithEntry(s: State, t: State, h: Handle, name: string, p: Ptr)
    requires StoresOk(s) && EntryAdded(s, t, h, name, p) && p in t.heap
    requires t.heap[p].key == Key(s.stores[h].chronicle, name)
    requires forall q | q in s.heap :: q in t.heap && t.heap[q] == s.heap[q].(refs := t.heap[q].refs)
    ensures StoresOk(t)
  {
  }

  /** A handle has no other name for the story it would get under a new one. */
  lemma NewEntryIsNew(s: State, h: Handle, name: string, p: Ptr)
    requires StoresOk(s) && h in s.stores && name !in s.stores[h].byProducer
    requires p in s.heap ==> s.heap[p].key == Key(s.stores[h].chronicle, name)
    ensures p !in s.stores[h].byProducer.Values
  {
    hide Key;
    if p in s.stores[h].byProducer.Values {
      var n :| n in s.stores[h].byProducer && s.stores[h].byProducer[n] == p;
      StoryOfKey(s.stores[h].chronicle, n, name);
    }
  }

  lemma ValuesWith(m: map<string, Ptr>, name: string, p: Ptr)
    requires name !in m
    ensures m[name := p].Values == m.Values + {p}
  {
    var u := m[name := p];
    assert u[name] == p && name in u;
    forall v | v in m.Values ensures v in u.Values {
      var n :| n in m && m[n] == v;
      assert n in u && u[n] == v;
    }
  }

  /** A handle's new entry adds it to that story's users, and changes nobody else's. */
  lemma UsersWithEntry(s: State, t: State, h: Handle, name: string, p: Ptr, q: Ptr)
    requires StoresOk(s) && EntryAdded(s, t, h, name, p)
    requires p in s.heap ==> s.heap[p].key == Key(s.stores[h].chronicle, name)
    ensures Users(t, q) == (if q == p then Users(s, q) + {h} else Users(s, q))
    ensures q == p ==> h !in Users(s, q)
  {
    hide Key, StoresOk;
    NewEntryIsNew(s, h, name, p);
    ValuesWith(s.stores[h].byProducer, name, p);
  }

  lemma SharedAcquireKeeps(s: State, h: Handle, name: string, e: AcquireEnv)
    requires Inv(s) && h in s.stores && name !in s.stores[h].byProducer
    requires Key(s.stores[h].chronicle, name) in s.stories
    ensures var st := s.stores[h];
            var (t, p) := AcquireStory(s, st.chronicle, name, e);
            p.Some? && Inv(t.(stores := t.stores[h := st.(byProducer := st.byProducer[name := p.value])]))
  {
    hide Key, StoresOk, Balanced, Users;
    var st := s.stores[h];
    var p := s.stories[Key(st.chronicle, name)];
    var t := AcquireStory(s, st.chronicle, name, e).0;
    var u := t.(stores := s.stores[h := st.(byProducer := st.byProducer[name := p])]);
    assert SameRegistry(s, u);
    RegistryUntouched(s, u);
    StoresWithEntry(s, u, h, name, p);
    forall q | q in u.heap ensures u.heap[q].refs == |Users(u, q)| > 0 { UsersWithEntry(s, u, h, name, p, q); }
  }

  lemma FreshAcquireKeeps(s: State, h: Handle, name: string, e: AcquireEnv)
    requires Inv(s) && s.connected && h in s.stores && name !in s.stores[h].byProducer
    requires Key(s.stores[h].chronicle, name) !in s.stories && e == AcquireEnv(true, true, true)
    ensures var st := s.stores[h];
            var (t, p) := AcquireStory(s, st.chronicle, name, e);
            p.Some? && Inv(t.(stores := t.stores[h := st.(byProducer := st.byProducer[name := p.value])]))
  {
    hide Key, StoresOk, Balanced, Users;
    var st := s.stores[h];
    var p := s.next;
    var t := AcquireStory(s, st.chronicle, name, e).0;
    var u := t.(stores := s.stores[h := st.(byProducer := st.byProducer[name := p])]);
    assert p !in s.heap;
    StoresWithEntry(s, u, h, name, p);
    forall q | q in u.heap ensures u.heap[q].refs == |Users(u, q)| > 0 {
      UsersWithEntry(s, u, h, name, p, q);
      if q == p { NoUsersYet(s, p); }
    }
    FreshBalanced(s, u, st.chronicle, name, p);
  }

  lemma NoUsersYet(s: State, p: Ptr)
    requires StoresOk(s) && p !in s.heap
    ensures Users(s, p) == {}
  {
    hide Key;
    forall h | h in s.stores ensures p !in s.stores[h].byProducer.Values {
      if n :| n in s.stores[h].byProducer && s.stores[h].byProducer[n] == p {}
    }
  }

  lemma FreshBalanced(s: State, u: State, chronicle: string, name: string, p: Ptr)
    requires Registered(s) && Balanced(s) && p !in s.heap && Key(chronicle, name) !in s.stories
    requires u.stories == s.stories[Key(chronicle, name) := p]
    requires u.heap == s.heap[p := Story(Key(chronicle, name), chronicle, name, 1)]
    requires u.calls == s.calls + [Acquire(chronicle, name)]
    ensures Balanced(u)
  {
    hide Key, Outstanding, Registered;
    forall c, n ensures Outstanding(u.calls, c, n) == if IsRegistered(u, c, n) then 1 else 0 {
      OutstandingSnoc(s.calls, Acquire(chronicle, name), c, n);
      if c != chronicle || n != name { OtherStory(s, u, chronicle, name, c, n, p); }
    }
  }

  lemma OtherStory(s: State, u: State, chronicle: string, name: string, c: string, n: string, p: Ptr)
    requires c != chronicle || n != name
    requires Registered(s) && p !in s.heap && Key(chronicle, name) !in s.stories
    requires u.stories == s.stories[Key(chronicle, name) := p]
    requires u.heap == s.heap[p := Story(Key(chronicle, name), chronicle, name, 1)]
    ensures IsRegistered(u, c, n) == IsRegistered(s, c, n)
  {
    hide Key;
  }

  lemma StoreSampleKeeps(s: State, h: Handle, producer: string, e: AcquireEnv, logged: bool)
    requires Inv(s) && h in s.stores
    ensures Inv(StoreSampleStep(s, h, producer, e, logged).0)
  {
    hide Key, StoryName, Registered, StoresOk, Counted;
    var st := s.stores[h];
    var name := StoryName(st.schema, producer);
    assert forall k | k in s.stories :: s.stories[k] in s.heap by { KnowPointers(s); }
    if name !in st.byProducer && s.connected {
      if Key(st.chronicle, name) in s.stories {
        SharedAcquireKeeps(s, h, name, e);
      } else if e.chronicleOk && e.acquired && e.haveMemory {
        FreshAcquireKeeps(s, h, name, e);
      } else if e.chronicleOk && e.acquired {
        ReleasedAtOnce(s, st.chronicle, name);
      }
    }
  }

  lemma KnowPointers(s: State)
    requires Inv(s)
    ensures Pointers(s)
  {
    InvPointers(s);
  }

  /** Neither handles nor counts change. */
  lemma UsersUntouched(s: State, t: State)
    requires StoresOk(s) && Counted(s) && t.heap == s.heap && t.stores == s.stores
    ensures StoresOk(t) && Counted(t)
  {
    forall p | p in s.heap ensures Users(t, p) == Users(s, p) {}
    CountsUntouched(s, t);
  }

  lemma CountsUntouched(s: State, t: State)
    requires Counted(s) && t.heap == s.heap && forall p | p in s.heap :: Users(t, p) == Users(s, p)
    ensures Counted(t)
  {
    hide Users;
  }

  lemma ReleasedAtOnce(s: State, chronicle: string, name: string)
    requires Inv(s)
    ensures Inv(s.(calls := s.calls + [Acquire(chronicle, name), Release(chronicle, name)]))
  {
    hide Key, Outstanding, Registered, Balanced, StoresOk, Counted;
    var t := s.(calls := s.calls + [Acquire(chronicle, name), Release(chronicle, name)]);
    forall c, n ensures Outstanding(t.calls, c, n) == Outstanding(s.calls, c, n) {
      assert t.calls == s.calls + [Acquire(chronicle, name)] + [Release(chronicle, name)];
      OutstandingSnoc(s.calls, Acquire(chronicle, name), c, n);
      OutstandingSnoc(s.calls + [Acquire(chronicle, name)], Release(chronicle, name), c, n);
    }
    RegistryUntouched(s, t);
    UsersUntouched(s, t);
  }

  lemma CloseOneKeeps(s: State, h: Handle, name: string)
    requires Inv(s) && h in s.stores && name in s.stores[h].byProducer
    ensures s.stores[h].byProducer[name] in s.heap && Inv(CloseOneStep(s, h, name))
  {
    KnowPointers(s);
    var p := s.stores[h].byProducer[name];
    if s.heap[p].refs > 1 { DropOneRef(s, h, name, p); } else { DropLastRef(s, h, name, p); }
  }

  /** A store maps different names to different stories. */
  lemma ValuesWithout(s: State, h: Handle, name: string)
    requires StoresOk(s) && h in s.stores && name in s.stores[h].byProducer
    ensures var m := s.stores[h].byProducer;
            (m - {name}).Values == m.Values - {m[name]} && m[name] in m.Values && m[name] in s.heap
  {
    hide Key;
    var m := s.stores[h].byProducer;
    forall n | n in m && m[n] == m[name] ensures n == name { StoryOfKey(s.stores[h].chronicle, n, name); }
    forall v ensures v in (m - {name}).Values <==> v in m.Values && v != m[name] {
      if v in m.Values && v != m[name] {
        var n :| n in m && m[n] == v;
        assert n in m - {name} && (m - {name})[n] == v;
      }
    }
  }

  /** Taking an entry out of a handle takes the handle out of that story's users only. */
  lemma UsersWithout(s: State, t: State, h: Handle, name: string, q: Ptr)
    requires StoresOk(s) && h in s.stores && name in s.stores[h].byProducer
    requires t.stores == s.stores[h := s.stores[h].(byProducer := s.stores[h].byProducer - {name})]
    ensures Users(t, q) == if q == s.stores[h].byProducer[name] then Users(s, q) - {h} else Users(s, q)
    ensures q == s.stores[h].byProducer[name] ==> h in Users(s, q)
  {
    hide StoresOk, Key;
    ValuesWithout(s, h, name);
  }

  lemma StoresWithout(s: State, t: State, h: Handle, name: string, p: Ptr)
    requires StoresOk(s) && h in s.stores && name in s.stores[h].byProducer
    requires t.stores == s.stores[h := s.stores[h].(byProducer := s.stores[h].byProducer - {name})]
    requires forall q | q in s.heap && q != p :: q in t.heap && t.heap[q] == s.heap[q]
    requires p in t.heap ==> p in s.heap && t.heap[p] == s.heap[p].(refs := t.heap[p].refs)
    requires p !in t.heap ==>
               forall g, n | g in t.stores && n in t.stores[g].byProducer :: t.stores[g].byProducer[n] != p
    ensures StoresOk(t)
  {
  }

  lemma DropOneRef(s: State, h: Handle, name: string, p: Ptr)
    requires Inv(s) && h in s.stores && name in s.stores[h].byProducer && p == s.stores[h].byProducer[name]
    requires p in s.heap && s.heap[p].refs > 1
    ensures Inv(CloseOneStep(s, h, name))
  {
    hide Key, Users, Registered, Balanced, StoresOk;
    var t := CloseOneStep(s, h, name);
    RegistryUntouched(s, t);
    StoresWithout(s, t, h, name, p);
    forall q | q in t.heap ensures t.heap[q].refs == |Users(t, q)| > 0 { UsersWithout(s, t, h, name, q); }
  }

  lemma DropLastRef(s: State, h: Handle, name: string, p: Ptr)
    requires Inv(s) && h in s.stores && name in s.stores[h].byProducer && p == s.stores[h].byProducer[name]
    requires p in s.heap && s.heap[p].refs == 1
    ensures Inv(CloseOneStep(s, h, name))
  {
    hide Key, Users, Balanced, StoresOk;
    var t := CloseOneStep(s, h, name);
    assert s.connected;
    LastUser(s, t, h, name, p);
    StoresWithout(s, t, h, name, p);
    forall q | q in t.heap ensures t.heap[q].refs == |Users(t, q)| > 0 { UsersWithout(s, t, h, name, q); }
    LastBalanced(s, t, p);
  }

  lemma LastUser(s: State, t: State, h: Handle, name: string, p: Ptr)
    requires StoresOk(s) && h in s.stores && name in s.stores[h].byProducer && p == s.stores[h].byProducer[name]
    requires p in s.heap && |Users(s, p)| == 1
    requires t.stores == s.stores[h := s.stores[h].(byProducer := s.stores[h].byProducer - {name})]
    ensures forall g, n | g in t.stores && n in t.stores[g].byProducer :: t.stores[g].byProducer[n] != p
  {
    hide StoresOk, Key;
    UsersWithout(s, t, h, name, p);
    OnlyMember(Users(s, p), h);
    forall g, n | g in t.stores && n in t.stores[g].byProducer ensures t.stores[g].byProducer[n] != p {
      assert g !in Users(t, p);
    }
  }

  lemma LastBalanced(s: State, t: State, p: Ptr)
    requires Registered(s) && Balanced(s) && p in s.heap
    requires t.stories == s.stories - {s.heap[p].key} && t.heap == s.heap - {p}
    requires t.calls == s.calls + [Release(s.heap[p].chronicle, s.heap[p].story)]
    ensures Balanced(t)
  {
    hide Key, Outstanding;
    var x := s.heap[p];
    forall c, n ensures Outstanding(t.calls, c, n) == if IsRegistered(t, c, n) then 1 else 0 {
      OutstandingSnoc(s.calls, Release(x.chronicle, x.story), c, n);
      if c != x.chronicle || n != x.story { StillRegistered(s, t, p, c, n); }
    }
  }

  lemma OnlyMember(s: set<Handle>, h: Handle)
    requires |s| == 1 && h in s
    ensures s == {h}
  {
    assert |s - {h}| == 0;
  }

  lemma StillRegistered(s: State, t: State, p: Ptr, c: string, n: string)
    requires Registered(s) && p in s.heap && (c != s.heap[p].chronicle || n != s.heap[p].story)
    requires t.stories == s.stories - {s.heap[p].key} && t.heap == s.heap - {p}
    ensures IsRegistered(t, c, n) == IsRegistered(s, c, n)
  {
    hide Key;
  }

  lemma NoUsers(s: State, p: Ptr)
    requires p in s.heap && s.stores == map[]
    ensures |Users(s, p)| == 0
  {
  }

  /** With every store closed no story has a user, so none is registered. */
  lemma NothingRegistered(s: State)
    requires Registered(s) && Counted(s) && s.stores == map[]
    ensures s.stories == map[] && s.heap == map[]
  {
    hide Key, Users;
    if s.heap != map[] {
      var p :| p in s.heap.Keys;
      NoUsers(s, p);
    }
    assert s.stories.Keys == {};
  }

  /** The last detach, every store closed, therefore has nothing left to release. */
  lemma DetachKeeps(s: State, t: State)
    requires Inv(s) && Next(s, Detach, t)
    ensures Inv(t)
    ensures s.instances <= 1 ==> s.stories == map[] && t.calls == s.calls
  {
    hide Key, Outstanding, Registered, Balanced, StoresOk, Counted, Users;
    KnowPointers(s);
    if s.instances > 1 || !s.connected {
      RegistryUntouched(s, t);
      UsersUntouched(s, t);
      if s.instances <= 1 { NothingRegistered(s); }
    } else {
      NothingRegistered(s);
      var made :| t.calls == s.calls + made && Releases(s, s.stories.Keys, made);
      NothingReleased(s, made);
      assert s.calls + [] == s.calls;
      assert t == s.(instances := t.instances, connected := false);
      EmptyIsFine(s, t);
    }
  }

  lemma NothingReleased(s: State, calls: seq<Call>)
    requires s.stories == map[] && Releases(s, {}, calls)
    ensures calls == []
  {
    SomeMember(calls);
  }

  lemma SomeMember(calls: seq<Call>)
    ensures calls == [] || exists c :: c in calls
  {
    if calls != [] { assert calls[0] in calls; }
  }

  lemma EmptyIsFine(s: State, t: State)
    requires Inv(s) && s.stories == map[] && s.heap == map[] && s.stores == map[]
    requires t == s.(instances := t.instances, connected := false)
    ensures Inv(t)
  {
    hide Outstanding, Key;
    assert forall c, n :: !IsRegistered(t, c, n) && !IsRegistered(s, c, n);
  }

  lemma StepKeeps(s: State, step: Step, t: State)
    requires Inv(s) && Next(s, step, t)
    ensures Inv(t)
  {
    hide Key, Outstanding, StoreSampleStep, CloseOneStep, Registered, StoresOk, Counted, Balanced, Pointers, Detached;
    KnowPointers(s);
    match step {
      case StoreSample(h, producer, e, logged) => StoreSampleKeeps(s, h, producer, e, logged);
      case CloseOne(h, story) => CloseOneKeeps(s, h, story);
      case Detach => DetachKeeps(s, t);
      case _ => PlainStepKeeps(s, step, t);
    }
  }

  lemma PlainStepKeeps(s: State, step: Step, t: State)
    requires Inv(s) && Next(s, step, t) && (step.Connect? || step.OpenStore? || step.CloseDone? || step.Attach?)
    ensures Inv(t)
  {
    hide Key, Outstanding, Registered, Balanced, StoresOk, Counted, Users, Pointers;
    KnowPointers(s);
    RegistryUntouched(s, t);
    match step {
      case OpenStore(h, chronicle, schema, _, _) => if t != s { EmptyStoreOpened(s, t, h); }
      case CloseDone(h) => EmptyStoreClosed(s, t, h);
      case _ => UsersUntouched(s, t);
    }
  }

  /** Handle h has no entry in either state; the others are the same. */
  predicate OnlyEmptyStoreDiffers(s: State, t: State, h: Handle)
  {
    t.heap == s.heap && t.stores - {h} == s.stores - {h} &&
    (h in s.stores ==> s.stores[h].byProducer == map[]) && (h in t.stores ==> t.stores[h].byProducer == map[])
  }

  lemma EmptyStoreHasNoUsers(s: State, t: State, h: Handle, p: Ptr)
    requires OnlyEmptyStoreDiffers(s, t, h) && p in s.heap
    ensures Users(t, p) == Users(s, p)
  {
    var n := s.heap[p].story;
    forall g ensures g in Users(t, p) <==> g in Users(s, p) {
      if g != h { assert g in t.stores <==> g in t.stores - {h}; assert g in s.stores <==> g in s.stores - {h}; }
    }
  }

  lemma EmptyStoreCounts(s: State, t: State, h: Handle)
    requires OnlyEmptyStoreDiffers(s, t, h) && Counted(s)
    ensures Counted(t)
  {
    hide Users, OnlyEmptyStoreDiffers;
    assert t.heap == s.heap by { SameHeap(s, t, h); }
    forall p | p in s.heap ensures Users(t, p) == Users(s, p) { EmptyStoreHasNoUsers(s, t, h, p); }
    CountsUntouched(s, t);
  }

  lemma SameHeap(s: State, t: State, h: Handle)
    requires OnlyEmptyStoreDiffers(s, t, h)
    ensures t.heap == s.heap
  {
  }

  lemma EmptyStoreOpened(s: State, t: State, h: Handle)
    requires StoresOk(s) && Counted(s) && t.heap == s.heap && h !in s.stores && h in t.stores
    requires t.stores == s.stores[h := t.stores[h]] && t.stores[h].byProducer == map[]
    ensures StoresOk(t) && Counted(t)
  {
    hide Counted;
    assert t.stores - {h} == s.stores - {h};
    EmptyStoreCounts(s, t, h);
  }

  lemma EmptyStoreClosed(s: State, t: State, h: Handle)
    requires StoresOk(s) && Counted(s) && t.heap == s.heap && h in s.stores
    requires s.stores[h].byProducer == map[] && t.stores == s.stores - {h}
    ensures StoresOk(t) && Counted(t)
  {
    hide Counted;
    assert t.stores - {h} == s.stores - {h};
    EmptyStoreCounts(s, t, h);
  }

  ghost predicate Reaches(steps: seq<Step>, s: State)
  {
    if steps == [] then s == INIT
    else
      var last := steps[|steps| - 1];
      exists r :: Reaches(steps[..|steps| - 1], r) && Next(r, last, s)
  }

  /** In every run, whatever the containers are called: each story's refs is the number of open handles
      that map to it, every pointer in an open handle is live and is the story registered under its key,
      and each acquisition is released exactly once, when the story leaves the registry. */
  lemma {:induction false} RegistryIsSound(steps: seq<Step>, s: State)
    requires Reaches(steps, s)
    ensures Inv(s) && Pointers(s)
    decreases |steps|
  {
    hide Inv, Next, Pointers;
    if steps == [] {
      InitOk();
    } else {
      var last := steps[|steps| - 1];
      var r :| Reaches(steps[..|steps| - 1], r) && Next(r, last, s);
      RegistryIsSound(steps[..|steps| - 1], r);
      StepKeeps(r, last, s);
      KnowPointers(s);
    }
  }

  lemma InitOk()
    ensures Inv(INIT) && Pointers(INIT)
  {
  }

  /* ---- whose story a handle writes to ---- */

  /** The containers a run opens. */
  function Containers(steps: seq<Step>): set<string>
  {
    set i | 0 <= i < |steps| && steps[i].OpenStore? :: steps[i].chronicle
  }

  /** Every pointer in an open handle is to that very container's and name's story. */
  ghost predicate OwnContainer(s: State)
  {
    forall h, n | h in s.stores && n in s.stores[h].byProducer ::
      var p := s.stores[h].byProducer[n];
      p in s.heap && s.heap[p].chronicle == s.stores[h].chronicle && s.heap[p].story == n
  }

  /** Stores and stories are of these containers only. */
  ghost predicate OfContainers(s: State, names: set<string>)
  {
    (forall h | h in s.stores :: s.stores[h].chronicle in names) &&
    (forall p | p in s.heap :: s.heap[p].chronicle in names)
  }

  lemma StepStaysWithin(s: State, step: Step, t: State, names: set<string>)
    requires Inv(s) && Next(s, step, t) && OfContainers(s, names)
    ensures OfContainers(t, names + (if step.OpenStore? then {step.chronicle} else {}))
  {
    hide Key, StoryName, Registered, StoresOk, Counted, Balanced, Pointers, StoreSampleStep;
    KnowPointers(s);
    match step {
      case StoreSample(h, producer, e, logged) => SampleStaysWithin(s, h, producer, e, logged, names);
      case _ =>
    }
  }

  lemma SampleStaysWithin(s: State, h: Handle, producer: string, e: AcquireEnv, logged: bool, names: set<string>)
    requires Pointers(s) && h in s.stores && OfContainers(s, names)
    ensures OfContainers(StoreSampleStep(s, h, producer, e, logged).0, names)
  {
    hide Key, StoryName;
  }

  lemma {:induction false} RunStaysWithin(steps: seq<Step>, s: State)
    requires Reaches(steps, s)
    ensures OfContainers(s, Containers(steps))
    decreases |steps|
  {
    hide Inv, Next, OfContainers;
    if steps == [] {
      NothingOpened();
    } else {
      var last := steps[|steps| - 1];
      var r :| Reaches(steps[..|steps| - 1], r) && Next(r, last, s);
      RegistryIsSound(steps[..|steps| - 1], r);
      RunStaysWithin(steps[..|steps| - 1], r);
      StepStaysWithin(r, last, s, Containers(steps[..|steps| - 1]));
      MoreContainers(steps);
    }
  }

  lemma NothingOpened()
    ensures OfContainers(INIT, Containers([]))
  {
  }

  lemma MoreContainers(steps: seq<Step>)
    requires steps != []
    ensures var last := steps[|steps| - 1];
            Containers(steps) ==
            Containers(steps[..|steps| - 1]) + (if last.OpenStore? then {last.chronicle} else {})
  {
    var init, last := steps[..|steps| - 1], steps[|steps| - 1];
    forall c | c in Containers(steps)
      ensures c in Containers(init) || (last.OpenStore? && c == last.chronicle)
    {
      var i :| 0 <= i < |steps| && steps[i].OpenStore? && steps[i].chronicle == c;
      if i < |init| { assert init[i] == steps[i]; }
    }
    forall c | c in Containers(init) ensures c in Containers(steps) {
      var i :| 0 <= i < |init| && init[i].OpenStore? && init[i].chronicle == c;
      assert steps[i] == init[i];
    }
  }

  lemma OwnWhenApart(steps: seq<Step>, s: State)
    requires Reaches(steps, s) && forall c, d | c in Containers(steps) && d in Containers(steps) :: !Clash(c, d)
    ensures OwnContainer(s)
  {
    hide Reaches, Key, Clash, Containers;
    RegistryIsSound(steps, s);
    RunStaysWithin(steps, s);
    forall h, n | h in s.stores && n in s.stores[h].byProducer
      ensures var p := s.stores[h].byProducer[n];
              p in s.heap && s.heap[p].chronicle == s.stores[h].chronicle && s.heap[p].story == n
    {
      var x := s.heap[s.stores[h].byProducer[n]];
      assert x.key == Key(x.chronicle, x.story);
      KeyInjective(x.chronicle, x.story, s.stores[h].chronicle, n);
    }
  }

  lemma Extend(steps: seq<Step>, r: State, step: Step, t: State)
    requires Reaches(steps, r) && Next(r, step, t)
    ensures Reaches(steps + [step], t)
  {
    hide Next;
    var longer := steps + [step];
    assert longer[..|longer| - 1] == steps && longer[|longer| - 1] == step;
  }

  const GRANTED := AcquireEnv(true, true, true)

  /** Store 0 of container c1 and store 1 of container c2, each with at most one story, at pointer 0. */
  function TwoStores(c1: string, n1: string, c2: string, n2: string, m1: map<string, Ptr>, m2: map<string, Ptr>,
                     refs: nat): State
  {
    var k := Key(c1, n1);
    State(true, 0, if refs == 0 then map[] else map[0 := Story(k, c1, n1, refs)],
          if refs == 0 then map[] else map[k := 0], map[0 := Store(c1, n1, m1), 1 := Store(c2, n2, m2)],
          if refs == 0 then 0 else 1, if refs == 0 then [] else [Acquire(c1, n1)])
  }

  lemma TwoStoresOpened(c1: string, n1: string, c2: string, n2: string) returns (steps: seq<Step>)
    ensures Reaches(steps, TwoStores(c1, n1, c2, n2, map[], map[], 0)) && Containers(steps) == {c1, c2}
  {
    hide Reaches, Key;
    assert Reaches([], INIT) by { EmptyRun(); }
    var up := INIT.(connected := true);
    var one := up.(stores := map[0 := Store(c1, n1, map[])]);
    var two := TwoStores(c1, n1, c2, n2, map[], map[], 0);
    var a, b := OpenStore(0, c1, n1, true, true), OpenStore(1, c2, n2, true, true);
    Extend([], INIT, Connect, up);
    Extend([] + [Connect], up, a, one);
    Extend([] + [Connect] + [a], one, b, two);
    steps := [] + [Connect] + [a] + [b];
    assert steps == [Connect, a, b];
    assert steps[1].chronicle == c1 && steps[2].chronicle == c2;
  }

  lemma EmptyRun()
    ensures Reaches([], INIT)
  {
  }

  lemma PlainName(schema: string)
    ensures StoryName(schema, "") == schema
  {
  }

  const SAMPLE1 := StoreSample(0, "", GRANTED, true)
  const SAMPLE2 := StoreSample(1, "", GRANTED, true)

  lemma FirstSample(c1: string, n1: string, c2: string, n2: string)
    ensures Next(TwoStores(c1, n1, c2, n2, map[], map[], 0), SAMPLE1,
                 TwoStores(c1, n1, c2, n2, map[n1 := 0], map[], 1))
  {
    hide Key, StoryName;
    PlainName(n1);
  }

  lemma SecondSample(c1: string, n1: string, c2: string, n2: string)
    requires Key(c1, n1) == Key(c2, n2)
    ensures Next(TwoStores(c1, n1, c2, n2, map[n1 := 0], map[], 1), SAMPLE2,
                 TwoStores(c1, n1, c2, n2, map[n1 := 0], map[n2 := 0], 2))
  {
    hide Key, StoryName;
    PlainName(n2);
  }

  /** For any two containers whose names clash there is a run in which the second one's store gets, and
      sends its samples to, the first one's story. */
  lemma ClashSharesAStory(c1: string, c2: string) returns (steps: seq<Step>, s: State)
    requires Clash(c1, c2)
    ensures Reaches(steps, s) && Containers(steps) == {c1, c2} && !OwnContainer(s)
  {
    hide Reaches, Next;
    assert c1 != c2;
    KeysCollideExactly(c1, c2);
    var n1, n2 :| Key(c1, n1) == Key(c2, n2);
    hide Key;
    FirstSample(c1, n1, c2, n2);
    SecondSample(c1, n1, c2, n2);
    steps := TwoStoresOpened(c1, n1, c2, n2);
    var r := TwoStores(c1, n1, c2, n2, map[], map[], 0);
    var t := TwoStores(c1, n1, c2, n2, map[n1 := 0], map[], 1);
    s := TwoStores(c1, n1, c2, n2, map[n1 := 0], map[n2 := 0], 2);
    Extend(steps, r, SAMPLE1, t);
    Extend(steps + [SAMPLE1], t, SAMPLE2, s);
    SamplesOpenNothing(steps, SAMPLE1, SAMPLE2);
    steps := steps + [SAMPLE1] + [SAMPLE2];
    assert s.stores[1].byProducer[n2] == 0 && s.heap[0].chronicle == c1;
  }

  lemma SamplesOpenNothing(steps: seq<Step>, a: Step, b: Step)
    requires a.StoreSample? && b.StoreSample?
    ensures Containers(steps + [a] + [b]) == Containers(steps)
  {
    hide Containers;
    MoreContainers(steps + [a]);
    MoreContainers(steps + [a] + [b]);
    assert (steps + [a])[..|steps|] == steps && (steps + [a] + [b])[..|steps| + 1] == steps + [a];
  }

  /** Handles write to their own container's stories in every run over these containers exactly when no
      two of them clash. */
  lemma OwnContainerExactly(names: set<string>)
    ensures (forall steps, s | Reaches(steps, s) && Containers(steps) <= names :: OwnContainer(s)) <==>
            forall c, d | c in names && d in names :: !Clash(c, d)
  {
    hide Reaches, Containers, OwnContainer, Clash;
    if forall c, d | c in names && d in names :: !Clash(c, d) {
      forall steps, s | Reaches(steps, s) && Containers(steps) <= names ensures OwnContainer(s) {
        OwnWhenApart(steps, s);
      }
    } else {
      var c, d :| c in names && d in names && Clash(c, d);
      var steps, s := ClashSharesAStory(c, d);
      assert Containers(steps) <= names;
    }
  }

  /** When no store is open, nothing is held at the client. */
  lemma NothingHeldWhenClosed(steps: seq<Step>, s: State, c: string, n: string)
    requires Reaches(steps, s) && s.stores == map[]
    ensures s.stories == map[] && Outstanding(s.calls, c, n) == 0
  {
    hide Reaches, Key, Outstanding, Registered, Counted, StoresOk;
    RegistryIsSound(steps, s);
    NothingRegistered(s);
    assert !IsRegistered(s, c, n);
  }

  /* ---- the class ---- */

  /** The process-wide state. A story and a store handle are values kept under their pointers. */
  class Bridge {
    var connected: bool
    var instances: nat
    var heap: map<Ptr, Story>
    var stories: map<string, Ptr>
    var stores: map<Handle, Store>
    var next: Ptr
    var calls: seq<Call>

    constructor ()
      ensures Now() == INIT
    {
      connected, instances, heap, stories, stores, next, calls := false, 0, map[], map[], map[], 0, [];
    }

    ghost function Now(): State
      reads this
    {
      State(connected, instances, heap, stories, stores, next, calls)
    }

    method AcquireStoryLocked(chronicle: string, story: string, e: AcquireEnv) returns (p: Option<Ptr>)
      requires Key(chronicle, story) in stories ==> stories[Key(chronicle, story)] in heap
      modifies this
      ensures (Now(), p) == AcquireStory(old(Now()), chronicle, story, e)
    {
      var key := Key(chronicle, story);
      if key in stories {
        var q := stories[key];
        heap := heap[q := heap[q].(refs := heap[q].refs + 1)];
        return Some(q);
      }
      if !e.chronicleOk || !e.acquired { return None; }
      calls := calls + [Acquire(chronicle, story)];
      if !e.haveMemory {
        calls := calls + [Release(chronicle, story)];
        assert calls == old(calls) + [Acquire(chronicle, story), Release(chronicle, story)];
        return None;
      }
      p := Some(next);
      heap := heap[next := Story(key, chronicle, story, 1)];
      stories := stories[key := next];
      next := next + 1;
    }

    method ReleaseStoryLocked(p: Ptr)
      requires p in heap
      modifies this
      ensures Now() == ReleaseStory(old(Now()), p)
    {
      var x := heap[p];
      if x.refs > 1 {
        heap := heap[p := x.(refs := x.refs - 1)];
        return;
      }
      if connected {
        calls := calls + [Release(x.chronicle, x.story)];
      }
      stories := stories - {x.key};
      heap := heap - {p};
    }

    method OpenStore(h: Handle, chronicle: string, schema: string, chronicleOk: bool, haveMemory: bool)
      returns (ok: bool)
      requires h !in stores
      modifies this
      ensures ok == (old(connected) && chronicleOk && haveMemory)
      ensures Now() ==
              if ok then old(Now()).(stores := old(stores)[h := Store(chronicle, schema, map[])]) else old(Now())
    {
      if !connected || !chronicleOk || !haveMemory { return false; }
      stores := stores[h := Store(chronicle, schema, map[])];
      return true;
    }

    method StoreSample(h: Handle, producer: string, e: AcquireEnv, logged: bool)
      returns (code: Code, target: Option<Ptr>)
      requires h in stores && Pointers(Now())
      modifies this
      ensures (Now(), code, target) == StoreSampleStep(old(Now()), h, producer, e, logged)
    {
      var st := stores[h];
      var name := StoryName(st.schema, producer);
      if name in st.byProducer {
        target := Some(st.byProducer[name]);
      } else {
        if !connected { return EINVAL, None; }
        target := AcquireStoryLocked(st.chronicle, name, e);
        if target.None? { return EIO, None; }
        stores := stores[h := st.(byProducer := st.byProducer[name := target.value])];
      }
      if !logged { return EIO, target; }
      return OK, target;
    }

    /** One reference of a store. */
    method DropEntry(h: Handle, name: string)
      requires h in stores && name in stores[h].byProducer && stores[h].byProducer[name] in heap
      modifies this
      ensures Now() == CloseOneStep(old(Now()), h, name)
    {
      hide ReleaseStory;
      ghost var s := Now();
      var st := stores[h];
      ReleaseStoryLocked(st.byProducer[name]);
      ReleaseTouches(s, st.byProducer[name]);
      stores := stores[h := st.(byProducer := st.byProducer - {name})];
    }

    /** Drops every reference of the store, then the store. The stories nobody else uses are released,
        each once, and leave the registry; those others share lose one reference. */
    method CloseStore(h: Handle)
      requires h in stores && Inv(Now())
      modifies this
      ensures Inv(Now()) && stores == old(stores) - {h}
      ensures Dropped(old(Now()), old(stores[h].byProducer).Values, Now())
    {
      hide Inv, CloseOneStep, Dropped, Closing;
      ghost var s := Now();
      ghost var ptrs: set<Ptr> := {};
      CloseStarts(s, h);
      while stores[h].byProducer != map[]
        invariant h in stores && Closing(s, h, ptrs, Now())
        decreases |stores[h].byProducer|
      {
        var name :| name in stores[h].byProducer.Keys;
        EntryDropped(s, h, ptrs, Now(), name);
        ptrs := ptrs + {stores[h].byProducer[name]};
        DropEntry(h, name);
      }
      CloseEnds(s, h, ptrs, Now());
      stores := stores - {h};
    }

    method Attach()
      modifies this
      ensures Now() == old(Now()).(instances := old(instances) + 1)
    {
      instances := instances + 1;
    }

    method Detach()
      requires Registered(Now())
      modifies this
      ensures Detached(old(Now()), Now())
    {
      if instances > 0 {
        instances := instances - 1;
        if instances > 0 { return; }
      }
      if connected {
        ghost var s := old(Now());
        var left := stories.Keys;
        ghost var made: seq<Call> := [];
        while left != {}
          invariant left <= s.stories.Keys
          invariant heap == s.heap && stories == s.stories && stores == s.stores && next == s.next && connected
          invariant instances == if s.instances > 0 then s.instances - 1 else 0
          invariant calls == s.calls + made && Releases(s, s.stories.Keys - left, made)
          decreases left
        {
          var k :| k in left;
          var x := heap[stories[k]];
          calls := calls + [Release(x.chronicle, x.story)];
          ReleaseOneMore(s, s.stories.Keys - left, made, k);
          made := made + [ReleaseOf(s, k)];
          assert s.stories.Keys - (left - {k}) == s.stories.Keys - left + {k};
          left := left - {k};
        }
        heap, stories, connected := map[], map[], false;
        assert s.stories.Keys - {} == s.stories.Keys;
      }
    }
  }

  /* ---- what a close drops ---- */

  /** The stories after each of `ptrs` lost one reference, the last one freeing it. */
  function HeapWithout(s: State, ptrs: set<Ptr>): map<Ptr, Story>
  {
    map p | p in s.heap && !(p in ptrs && s.heap[p].refs <= 1) ::
      if p in ptrs then s.heap[p].(refs := s.heap[p].refs - 1) else s.heap[p]
  }

  /** Their names that leave the registry. */
  function FreedKeys(s: State, ptrs: set<Ptr>): set<string>
  {
    set k | k in s.stories && s.stories[k] in ptrs && s.stories[k] in s.heap && s.heap[s.stories[k]].refs <= 1
  }

  /** t is s with one reference to each of `ptrs` dropped, its stores aside. */
  ghost predicate Dropped(s: State, ptrs: set<Ptr>, t: State)
  {
    t == s.(heap := HeapWithout(s, ptrs), stories := s.stories - FreedKeys(s, ptrs), calls := t.calls,
            stores := t.stores) &&
    exists made :: t.calls == s.calls + made && Releases(s, FreedKeys(s, ptrs), made)
  }

  lemma NothingDropped(s: State)
    ensures Dropped(s, {}, s)
  {
    assert HeapWithout(s, {}) == s.heap && FreedKeys(s, {}) == {};
    assert s.calls + [] == s.calls && Releases(s, {}, []);
    assert s.stories - {} == s.stories;
  }

  lemma DroppedShared(s: State, ptrs: set<Ptr>, p: Ptr, t: State)
    requires Dropped(s, ptrs, t) && p in s.heap && p !in ptrs && p in t.heap && s.heap[p].refs > 1
    ensures Dropped(s, ptrs + {p}, ReleaseStory(t, p))
  {
    hide Releases;
    assert FreedKeys(s, ptrs + {p}) == FreedKeys(s, ptrs);
    assert ReleaseStory(t, p).heap == HeapWithout(s, ptrs + {p});
  }

  lemma DroppedLast(s: State, ptrs: set<Ptr>, p: Ptr, t: State)
    requires Registered(s) && Dropped(s, ptrs, t) && p in s.heap && p !in ptrs && p in t.heap && s.heap[p].refs <= 1
    ensures Dropped(s, ptrs + {p}, ReleaseStory(t, p))
  {
    hide Key, Releases;
    var u, k := ReleaseStory(t, p), s.heap[p].key;
    var made :| t.calls == s.calls + made && Releases(s, FreedKeys(s, ptrs), made);
    assert FreedKeys(s, ptrs + {p}) == FreedKeys(s, ptrs) + {k};
    ReleaseOneMore(s, FreedKeys(s, ptrs), made, k);
    assert s.calls + made + [ReleaseOf(s, k)] == s.calls + (made + [ReleaseOf(s, k)]);
    assert u.heap == HeapWithout(s, ptrs + {p});
    assert u.stories == s.stories - FreedKeys(s, ptrs + {p});
  }

  lemma DroppedOneMore(s: State, ptrs: set<Ptr>, p: Ptr, t: State)
    requires Registered(s) && Dropped(s, ptrs, t) && p in s.heap && p !in ptrs && p in t.heap
    ensures Dropped(s, ptrs + {p}, ReleaseStory(t, p))
  {
    hide Dropped, ReleaseStory, Registered;
    if s.heap[p].refs > 1 { DroppedShared(s, ptrs, p, t); } else { DroppedLast(s, ptrs, p, t); }
  }

  lemma DifferentKeys(s: State, j: string, k: string)
    requires Registered(s) && j in s.stories && k in s.stories && j != k
    ensures ReleaseOf(s, j) != ReleaseOf(s, k)
  {
  }

  lemma ReleaseOneMore(s: State, done: set<string>, made: seq<Call>, k: string)
    requires Registered(s) && done <= s.stories.Keys && k in s.stories && k !in done && Releases(s, done, made)
    ensures Releases(s, done + {k}, made + [ReleaseOf(s, k)])
  {
    hide Key, Registered;
    assert forall j | j in s.stories :: s.stories[j] in s.heap by { KnowStories(s); }
    if ReleaseOf(s, k) in made {
      var j :| j in done && ReleaseOf(s, k) == ReleaseOf(s, j);
      DifferentKeys(s, j, k);
    }
    var more := made + [ReleaseOf(s, k)];
    forall c ensures c in more <==> exists j :: j in done + {k} && c == ReleaseOf(s, j) {
      if c in made {
        var j :| j in done && c == ReleaseOf(s, j);
        assert j in done + {k};
      }
      if c == ReleaseOf(s, k) { assert k in done + {k}; }
    }
    assert forall i | 0 <= i < |made| :: made[i] in made;
  }

  lemma KnowStories(s: State)
    requires Registered(s)
    ensures forall j | j in s.stories :: s.stories[j] in s.heap
  {
  }

  lemma ReleaseTouches(s: State, p: Ptr)
    requires p in s.heap
    ensures var t := ReleaseStory(s, p);
            t.stores == s.stores && t.connected == s.connected && t.instances == s.instances
  {
  }

  lemma DroppedIgnoresStores(s: State, ptrs: set<Ptr>, t: State, stores: map<Handle, Store>)
    requires Dropped(s, ptrs, t)
    ensures Dropped(s, ptrs, t.(stores := stores))
  {
    hide Releases;
  }

  /** Handle h has given back `ptrs` and keeps the rest of what it had. */
  ghost predicate Closing(s: State, h: Handle, ptrs: set<Ptr>, t: State)
    requires h in s.stores && h in t.stores
  {
    Inv(s) && Inv(t) && Dropped(s, ptrs, t) && t.stores - {h} == s.stores - {h} &&
    s.stores[h].byProducer.Values == ptrs + t.stores[h].byProducer.Values && ptrs !! t.stores[h].byProducer.Values
  }

  lemma CloseStarts(s: State, h: Handle)
    requires Inv(s) && h in s.stores
    ensures Closing(s, h, {}, s)
  {
    hide Inv, Dropped;
    NothingDropped(s);
  }

  /** One turn of the close. */
  lemma EntryDropped(s: State, h: Handle, ptrs: set<Ptr>, t: State, name: string)
    requires h in s.stores && h in t.stores && name in t.stores[h].byProducer && Closing(s, h, ptrs, t)
    ensures t.stores[h].byProducer[name] in t.heap
    ensures var u, p := CloseOneStep(t, h, name), t.stores[h].byProducer[name];
            h in u.stores && Closing(s, h, ptrs + {p}, u) && |u.stores[h].byProducer| < |t.stores[h].byProducer|
  {
    hide ReleaseStory, Dropped, Registered, StoresOk, Counted, Balanced;
    var m := t.stores[h].byProducer;
    var p := m[name];
    CloseOneKeeps(t, h, name);
    ValuesWithout(t, h, name);
    ReleaseTouches(t, p);
    StillThere(s, ptrs, t, p);
    DroppedOneMore(s, ptrs, p, t);
    DroppedIgnoresStores(s, ptrs + {p}, ReleaseStory(t, p), CloseOneStep(t, h, name).stores);
    assert m.Keys == (m - {name}).Keys + {name};
  }

  lemma StillThere(s: State, ptrs: set<Ptr>, t: State, p: Ptr)
    requires Dropped(s, ptrs, t) && p in t.heap
    ensures p in s.heap
  {
    hide Releases;
  }

  lemma CloseEnds(s: State, h: Handle, ptrs: set<Ptr>, t: State)
    requires h in s.stores && h in t.stores && t.stores[h].byProducer == map[] && Closing(s, h, ptrs, t)
    ensures var u := t.(stores := t.stores - {h});
            Inv(u) && Dropped(s, s.stores[h].byProducer.Values, u) && u.stores == s.stores - {h}
  {
    hide Inv, Dropped;
    assert ptrs == s.stores[h].byProducer.Values;
    KnowPointers(t);
    PlainStepKeeps(t, CloseDone(h), t.(stores := t.stores - {h}));
    DroppedIgnoresStores(s, ptrs, t, t.stores - {h});
  }
}
