/**
 * A value that was fetched is there for everyone who asks after it (backend/app.py, TTLCache.get_or_fetch):
 * no second fetch begins while the entry is young enough and was not pushed out.
 */
module SharedFetches {
  import opened CacheRetention
  import opened SingleFlight
  import opened TtlCache

  /** What a step does to the cache, if anything: look a key up, or write a value. */
  function OpsOf(w: World, step: Step): seq<Op> {
    match step
    case DirectGet(_, key, ttl, now) => [Op.Get(key, ttl, now)]
    case DirectSet(_, key, value, now) => [Op.Set(key, value, now)]
    case Advance(t, now, _) =>
      if t in w.stages && w.stages[t].Looking? then [Op.Get(w.stages[t].key, w.stages[t].ttl, now)]
      else if t in w.stages && w.stages[t].Fetched? && w.stages[t].outcome.Value?
      then [Op.Set(w.stages[t].key, w.stages[t].outcome.value, now)]
      else []
    case _ => []
  }

  function AllOps(w: World, steps: seq<Step>): seq<Op>
    decreases |steps|
  {
    if steps == [] then [] else OpsOf(w, steps[0]) + AllOps(SingleFlight.Apply(w, steps[0]), steps[1..])
  }

  lemma {:induction false} CacheFollowsStep(w: World, step: Step)
    ensures SingleFlight.Apply(w, step).cap == w.cap
    ensures SingleFlight.Apply(w, step).cache == TtlCache.Run(w.cache, OpsOf(w, step), w.cap)
  {
    hide AfterGet, AfterSet, GetAnswer;
    var ops := OpsOf(w, step);
    if ops != [] {
      assert ops[1..] == [];
      assert TtlCache.Run(w.cache, ops, w.cap) == TtlCache.Apply(w.cache, ops[0], w.cap);
    }
  }

  lemma {:induction false} TraceConcat(s: seq<Entry>, a: seq<Op>, b: seq<Op>, cap: nat)
    ensures TtlCache.Run(s, a + b, cap) == TtlCache.Run(TtlCache.Run(s, a, cap), b, cap)
    decreases |a|
  {
    if a == [] {
      assert a + b == b;
    } else {
      assert (a + b)[1..] == a[1..] + b && (a + b)[0] == a[0];
      TraceConcat(TtlCache.Apply(s, a[0], cap), a[1..], b, cap);
    }
  }

  /** The shared cache goes through exactly the reads and writes of the steps. */
  lemma {:induction false} CacheFollows(w: World, steps: seq<Step>)
    ensures SingleFlight.Run(w, steps).cap == w.cap
    ensures SingleFlight.Run(w, steps).cache == TtlCache.Run(w.cache, AllOps(w, steps), w.cap)
    decreases |steps|
  {
    if steps != [] {
      hide SingleFlight.Apply, TtlCache.Apply, OpsOf;
      var next := SingleFlight.Apply(w, steps[0]);
      CacheFollowsStep(w, steps[0]);
      CacheFollows(next, steps[1..]);
      TraceConcat(w.cache, OpsOf(w, steps[0]), AllOps(next, steps[1..]), w.cap);
    }
  }

  lemma {:induction false} TraceKeepsDistinct(s: seq<Entry>, ops: seq<Op>, cap: nat)
    requires DistinctKeys(s)
    ensures DistinctKeys(TtlCache.Run(s, ops, cap))
    decreases |ops|
  {
    if ops != [] {
      hide DistinctKeys, TtlCache.Apply;
      ApplyKeepsDistinct(s, ops[0], cap);
      TraceKeepsDistinct(TtlCache.Apply(s, ops[0], cap), ops[1..], cap);
    }
  }

  /** A thread that is not on the way to a fetch of the key. */
  predicate Harmless(w: World, t: Thread, key: Key) {
    t in w.stages && w.stages[t].key == key ==>
      w.stages[t].Called? || w.stages[t].Looking? || w.stages[t].Done?
  }

  lemma {:induction false} LookupHits(w: World, step: Step, track: Track)
    requires Retains(w.cache, track.e, track.used) && DistinctKeys(w.cache)
    requires Undisturbed(OpsOf(w, step), track, w.cap)
    ensures step.Advance? && step.t in w.stages && w.stages[step.t].Looking? && w.stages[step.t].key == track.e.key ==>
              GetAnswer(w.cache, track.e.key, w.stages[step.t].ttl, step.now).Hit?
  {
    hide Retains, DistinctKeys, GetAnswer;
    if step.Advance? && step.t in w.stages && w.stages[step.t].Looking? && w.stages[step.t].key == track.e.key {
      OwnRead(w.cache, track.e, track.used, w.stages[step.t].ttl, step.now);
    }
  }

  lemma {:induction false} StaysHarmless(w: World, step: Step, t: Thread, track: Track)
    requires Retains(w.cache, track.e, track.used) && DistinctKeys(w.cache)
    requires Undisturbed(OpsOf(w, step), track, w.cap) && Harmless(w, t, track.e.key)
    ensures Harmless(SingleFlight.Apply(w, step), t, track.e.key)
  {
    LookupHits(w, step, track);
    hide Retains, DistinctKeys, GetAnswer, AfterGet, AfterSet, OpsOf, Undisturbed;
    if t != step.t {
      OthersUnmoved(w, step, t);
    }
  }

  lemma {:induction false} UndisturbedSplits(a: seq<Op>, b: seq<Op>, track: Track, cap: nat)
    ensures Undisturbed(a + b, track, cap) <==> Undisturbed(a, track, cap) && Undisturbed(b, Follow(a, track), cap)
    ensures Follow(a + b, track) == Follow(b, Follow(a, track))
    decreases |a|
  {
    if a == [] {
      assert a + b == b;
    } else {
      assert (a + b)[1..] == a[1..] + b && (a + b)[0] == a[0];
      UndisturbedSplits(a[1..], b, After(a[0], track), cap);
    }
  }

  lemma {:induction false} NoOneFetches(w: World, steps: seq<Step>, t: Thread, track: Track)
    requires Retains(w.cache, track.e, track.used) && DistinctKeys(w.cache)
    requires Undisturbed(AllOps(w, steps), track, w.cap) && Harmless(w, t, track.e.key)
    ensures Harmless(SingleFlight.Run(w, steps), t, track.e.key)
    decreases |steps|
  {
    if steps != [] {
      hide Retains, DistinctKeys, Harmless, OpsOf, SingleFlight.Apply, Undisturbed, Follow, TtlCache.Run;
      var next, now := SingleFlight.Apply(w, steps[0]), OpsOf(w, steps[0]);
      UndisturbedSplits(now, AllOps(next, steps[1..]), track, w.cap);
      CacheFollowsStep(w, steps[0]);
      RecentlyUsedStays(w.cache, now, track, w.cap);
      StaysHarmless(w, steps[0], t, track);
      FollowKeepsKey(now, track);
      NoOneFetches(next, steps[1..], t, Follow(now, track));
    }
  }

  lemma {:induction false} PrefixUndisturbed(w: World, steps: seq<Step>, i: nat, track: Track)
    requires i <= |steps| && Undisturbed(AllOps(w, steps), track, w.cap)
    ensures Undisturbed(AllOps(w, steps[..i]), track, w.cap)
  {
    hide Undisturbed, Follow, AllOps, SingleFlight.Run;
    AllOpsConcat(w, steps[..i], steps[i..]);
    assert steps[..i] + steps[i..] == steps;
    UndisturbedSplits(AllOps(w, steps[..i]), AllOps(SingleFlight.Run(w, steps[..i]), steps[i..]), track, w.cap);
  }

  lemma {:induction false} AllOpsConcat(w: World, a: seq<Step>, b: seq<Step>)
    ensures AllOps(w, a + b) == AllOps(w, a) + AllOps(SingleFlight.Run(w, a), b)
    decreases |a|
  {
    if a == [] {
      assert a + b == b;
    } else {
      hide OpsOf, SingleFlight.Apply;
      assert (a + b)[1..] == a[1..] + b && (a + b)[0] == a[0];
      AllOpsConcat(SingleFlight.Apply(w, a[0]), a[1..], b);
    }
  }

  /**
   * After a successful fetch: as long as the key is not disturbed, everyone who asks within the allowed age
   * gets a hit, and no thread that was called after the value was stored ever fetches the key.
   */
  lemma {:induction false} SuccessIsShared(cap: nat, before: seq<Step>, steps: seq<Step>, t: Thread, key: Key,
                                           flight: Flight, value: TtlCache.Value, now: real, other: Outcome)
    requires cap > 0
    requires var w := SingleFlight.Run(Start(cap), before);
             t in w.stages && w.stages[t] == Fetched(key, flight, Outcome.Value(value))
    requires var stored := SingleFlight.Apply(SingleFlight.Run(Start(cap), before), Advance(t, now, other));
             Undisturbed(AllOps(stored, steps), Track(Entry(key, now, value), {}), cap)
    ensures var stored := SingleFlight.Apply(SingleFlight.Run(Start(cap), before), Advance(t, now, other));
            var end := SingleFlight.Run(stored, steps);
            var kept := Follow(AllOps(stored, steps), Track(Entry(key, now, value), {})).e;
            && (forall ttl, later :: later - kept.at < ttl ==> GetAnswer(end.cache, key, ttl, later) == Hit(kept.value))
            && (forall u, i :: u !in stored.stages && 0 <= i <= |steps| ==>
                  !IsFetching(SingleFlight.Run(stored, steps[..i]), u, key))
  {
    var w := SingleFlight.Run(Start(cap), before);
    var stored := SingleFlight.Apply(w, Advance(t, now, other));
    var track := Track(Entry(key, now, value), {});
    CacheFollows(Start(cap), before);
    TraceKeepsDistinct([], AllOps(Start(cap), before), cap);
    CacheFollowsStep(w, Advance(t, now, other));
    assert stored.cache == AfterSet(w.cache, key, value, now, cap);
    ApplyKeepsDistinct(w.cache, Op.Set(key, value, now), cap);
    OwnWrite(w.cache, key, value, now, cap);
    CacheFollows(stored, steps);
    hide Retains, DistinctKeys, Undisturbed, Follow, AllOps, AfterSet, SingleFlight.Apply, GetAnswer, TtlCache.Run;
    forall ttl, later | later - Follow(AllOps(stored, steps), track).e.at < ttl
      ensures GetAnswer(SingleFlight.Run(stored, steps).cache, key, ttl, later)
           == Hit(Follow(AllOps(stored, steps), track).e.value)
    {
      WrittenIsHit(w.cache, key, value, now, AllOps(stored, steps), cap, ttl, later);
    }
    forall u, i | u !in stored.stages && 0 <= i <= |steps|
      ensures !IsFetching(SingleFlight.Run(stored, steps[..i]), u, key)
    {
      PrefixUndisturbed(stored, steps, i, track);
      NoOneFetches(stored, steps[..i], u, track);
    }
  }
}
