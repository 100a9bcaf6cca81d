/** A call that no other thread interrupts, step by step to its end (backend/app.py, TTLCache.get_or_fetch). */
module UninterruptedCalls {
  import opened SingleFlight
  import TtlCache

  function Advances(t: Thread, now: real, fetched: Outcome, n: nat): seq<Step> {
    if n == 0 then [] else [Advance(t, now, fetched)] + Advances(t, now, fetched, n - 1)
  }

  lemma {:induction false} OneStep(w: World, step: Step, rest: seq<Step>)
    ensures Run(w, [step] + rest) == Run(Apply(w, step), rest)
  {
    assert ([step] + rest)[1..] == rest;
  }

  lemma {:induction false} OneAdvance(w: World, t: Thread, now: real, fetched: Outcome, n: nat)
    requires n > 0
    ensures Run(w, Advances(t, now, fetched, n))
         == Run(Apply(w, Advance(t, now, fetched)), Advances(t, now, fetched, n - 1))
  {
    OneStep(w, Advance(t, now, fetched), Advances(t, now, fetched, n - 1));
  }

  /** What a call finds when it looks: the cache, or else a flight to join, or else neither. */
  function Looked(w: World, t: Thread, key: TtlCache.Key, ttl: real, now: real): World {
    match TtlCache.GetAnswer(w.cache, key, ttl, now)
    case Hit(v) =>
      w.(cache := TtlCache.AfterGet(w.cache, key, ttl, now), stages := w.stages[t := Done(key, FromCache(v))])
    case Miss =>
      if key in w.flights
      then w.(cache := TtlCache.AfterGet(w.cache, key, ttl, now), stages := w.stages[t := Waiting(key, w.flights[key])])
      else w.(cache := TtlCache.AfterGet(w.cache, key, ttl, now), stages := w.stages[t := Fetching(key, w.next)],
              flights := w.flights[key := w.next], next := w.next + 1)
  }

  lemma {:induction false} NoSteps(w: World, t: Thread, now: real, fetched: Outcome)
    ensures Run(w, Advances(t, now, fetched, 0)) == w
  {
  }

  lemma Latest(stages: map<Thread, Stage>, t: Thread, before: Stage, after: Stage)
    ensures stages[t := before][t := after] == stages[t := after]
  {
  }

  lemma TakesTheLock(w: World, t: Thread, key: TtlCache.Key, ttl: real, now: real, fetched: Outcome)
    requires t !in w.stages && w.lock.Free?
    ensures Apply(Apply(w, Call(t, key, ttl)), Advance(t, now, fetched)) ==
            w.(stages := w.stages[t := Looking(key, ttl)], lock := Held(t))
  {
    hide TtlCache.AfterGet, TtlCache.AfterSet, TtlCache.GetAnswer;
    Latest(w.stages, t, Called(key, ttl), Looking(key, ttl));
  }

  lemma LooksAndDecides(w: World, t: Thread, key: TtlCache.Key, ttl: real, now: real, fetched: Outcome)
    requires t !in w.stages && w.lock.Free?
    ensures var looking := w.(stages := w.stages[t := Looking(key, ttl)], lock := Held(t));
            var advance := Advance(t, now, fetched);
            Apply(Apply(looking, advance), advance) == Looked(w, t, key, ttl, now)
  {
    hide TtlCache.AfterGet, TtlCache.AfterSet, TtlCache.GetAnswer;
    var looking := w.(stages := w.stages[t := Looking(key, ttl)], lock := Held(t));
    match TtlCache.GetAnswer(w.cache, key, ttl, now)
    case Hit(v) => Latest(w.stages, t, Looking(key, ttl), Done(key, FromCache(v)));
    case Miss =>
      var missed := Missed(key);
      Latest(w.stages, t, Looking(key, ttl), missed);
      assert Apply(looking, Advance(t, now, fetched)).stages == w.stages[t := missed];
      var decided := if key in w.flights then Waiting(key, w.flights[key]) else Fetching(key, w.next);
      Latest(w.stages, t, missed, decided);
  }

  lemma {:induction false} CallLooks(w: World, t: Thread, key: TtlCache.Key, ttl: real, now: real, fetched: Outcome)
    requires t !in w.stages && w.lock.Free?
    ensures Run(w, [Call(t, key, ttl)] + Advances(t, now, fetched, 3)) == Looked(w, t, key, ttl, now)
  {
    hide *;
    var advance := Advance(t, now, fetched);
    var w1 := Apply(w, Call(t, key, ttl));
    var w2 := Apply(w1, advance);
    var w3 := Apply(w2, advance);
    OneStep(w, Call(t, key, ttl), Advances(t, now, fetched, 3));
    OneAdvance(w1, t, now, fetched, 3);
    OneAdvance(w2, t, now, fetched, 2);
    OneAdvance(w3, t, now, fetched, 1);
    NoSteps(Apply(w3, advance), t, now, fetched);
    TakesTheLock(w, t, key, ttl, now, fetched);
    LooksAndDecides(w, t, key, ttl, now, fetched);
  }

  /** The fetch comes to something, and the value is stored. */
  lemma FetchesAndStores(w: World, t: Thread, key: TtlCache.Key, f: Flight, now: real, fetched: Outcome)
    requires t in w.stages && w.stages[t] == Fetching(key, f)
    ensures var advance := Advance(t, now, fetched);
            Apply(Apply(w, advance), advance) ==
            w.(cache := if fetched.Value? then TtlCache.AfterSet(w.cache, key, fetched.value, now, w.cap) else w.cache,
               stages := w.stages[t := Stored(key, f, fetched)])
  {
    hide TtlCache.AfterGet, TtlCache.AfterSet, TtlCache.GetAnswer;
    Latest(w.stages, t, Fetched(key, f, fetched), Stored(key, f, fetched));
  }

  /** The flight is resolved, and leaves the table under the lock. */
  lemma ResolvesAndRemoves(w: World, t: Thread, key: TtlCache.Key, f: Flight, now: real, fetched: Outcome)
    requires t in w.stages && w.stages[t] == Stored(key, f, fetched) && w.lock.Free?
    requires key in w.flights && w.flights[key] == f
    ensures var advance := Advance(t, now, fetched);
            Apply(Apply(Apply(w, advance), advance), advance) ==
            w.(stages := w.stages[t := Done(key, FromFlight(fetched))], flights := w.flights - {key},
               outcomes := w.outcomes[f := fetched])
  {
    hide TtlCache.AfterGet, TtlCache.AfterSet, TtlCache.GetAnswer;
    var advance := Advance(t, now, fetched);
    var resolved, removing := Resolved(key, f, fetched), Removing(key, f, fetched);
    var w1 := w.(stages := w.stages[t := resolved], outcomes := w.outcomes[f := fetched]);
    assert Apply(w, advance) == w1;
    Latest(w.stages, t, resolved, removing);
    var w2 := w1.(stages := w.stages[t := removing], lock := Held(t));
    assert Apply(w1, advance) == w2;
    Latest(w.stages, t, removing, Done(key, FromFlight(fetched)));
  }

  lemma {:induction false} FetchFinishes(w: World, t: Thread, key: TtlCache.Key, f: Flight, now: real, fetched: Outcome)
    requires t in w.stages && w.stages[t] == Fetching(key, f) && w.lock.Free? && key in w.flights && w.flights[key] == f
    ensures Run(w, Advances(t, now, fetched, 5)) ==
            w.(cache := if fetched.Value? then TtlCache.AfterSet(w.cache, key, fetched.value, now, w.cap) else w.cache,
               stages := w.stages[t := Done(key, FromFlight(fetched))],
               flights := w.flights - {key}, outcomes := w.outcomes[f := fetched])
  {
    hide *;
    var advance := Advance(t, now, fetched);
    var w1 := Apply(w, advance);
    var w2 := Apply(w1, advance);
    var w3 := Apply(w2, advance);
    var w4 := Apply(w3, advance);
    OneAdvance(w, t, now, fetched, 5);
    OneAdvance(w1, t, now, fetched, 4);
    OneAdvance(w2, t, now, fetched, 3);
    OneAdvance(w3, t, now, fetched, 2);
    OneAdvance(w4, t, now, fetched, 1);
    NoSteps(Apply(w4, advance), t, now, fetched);
    FetchesAndStores(w, t, key, f, now, fetched);
    ResolvesAndRemoves(w2, t, key, f, now, fetched);
    Latest(w.stages, t, Stored(key, f, fetched), Done(key, FromFlight(fetched)));
  }

  lemma {:induction false} AdvancesConcat(t: Thread, now: real, fetched: Outcome, m: nat, n: nat)
    ensures Advances(t, now, fetched, m) + Advances(t, now, fetched, n) == Advances(t, now, fetched, m + n)
  {
    if m > 0 {
      AdvancesConcat(t, now, fetched, m - 1, n);
    }
  }

  /**
   * A call that nobody interrupts: after eight steps the thread has the cached value, or waits for the flight
   * that was there, or has what it fetched; then the value is in the cache, the error is not, the waiters can
   * be answered, the flight is gone and the lock is free.
   */
  lemma {:induction false} CallGoesThrough(w: World, t: Thread, key: TtlCache.Key, ttl: real, now: real,
                                           fetched: Outcome)
    requires t !in w.stages && w.lock.Free? && (key in w.flights ==> w.flights[key] !in w.outcomes)
    ensures var end := Run(w, [Call(t, key, ttl)] + Advances(t, now, fetched, 8));
            var left := TtlCache.AfterGet(w.cache, key, ttl, now);
            match TtlCache.GetAnswer(w.cache, key, ttl, now)
            case Hit(v) => end == w.(cache := left, stages := w.stages[t := Done(key, FromCache(v))])
            case Miss =>
              if key in w.flights
              then end == w.(cache := left, stages := w.stages[t := Waiting(key, w.flights[key])])
              else end == w.(cache := if fetched.Value? then TtlCache.AfterSet(left, key, fetched.value, now, w.cap)
                                      else left,
                             stages := w.stages[t := Done(key, FromFlight(fetched))],
                             outcomes := w.outcomes[w.next := fetched], next := w.next + 1)
  {
    var middle := Looked(w, t, key, ttl, now);
    CallConcat(w, t, key, ttl, now, fetched);
    CallLooks(w, t, key, ttl, now, fetched);
    hide TtlCache.AfterGet, TtlCache.GetAnswer, TtlCache.AfterSet, Run, Advances, Apply;
    if TtlCache.GetAnswer(w.cache, key, ttl, now).Miss? && key !in w.flights {
      FreshFetch(w, t, key, ttl, now, fetched);
    } else {
      StaysPut(middle, t, now, fetched, 5);
    }
  }

  lemma {:induction false} FreshFetch(w: World, t: Thread, key: TtlCache.Key, ttl: real, now: real, fetched: Outcome)
    requires w.lock.Free? && TtlCache.GetAnswer(w.cache, key, ttl, now).Miss? && key !in w.flights
    ensures var left := TtlCache.AfterGet(w.cache, key, ttl, now);
            Run(Looked(w, t, key, ttl, now), Advances(t, now, fetched, 5)) ==
            w.(cache := if fetched.Value? then TtlCache.AfterSet(left, key, fetched.value, now, w.cap) else left,
               stages := w.stages[t := Done(key, FromFlight(fetched))],
               outcomes := w.outcomes[w.next := fetched], next := w.next + 1)
  {
    hide TtlCache.AfterGet, TtlCache.GetAnswer, TtlCache.AfterSet, Run, Advances, Apply;
    FetchFinishes(Looked(w, t, key, ttl, now), t, key, w.next, now, fetched);
    assert w.flights[key := w.next] - {key} == w.flights;
    Latest(w.stages, t, Fetching(key, w.next), Done(key, FromFlight(fetched)));
  }

  lemma {:induction false} CallConcat(w: World, t: Thread, key: TtlCache.Key, ttl: real, now: real, fetched: Outcome)
    ensures Run(w, [Call(t, key, ttl)] + Advances(t, now, fetched, 8)) ==
            Run(Run(w, [Call(t, key, ttl)] + Advances(t, now, fetched, 3)), Advances(t, now, fetched, 5))
  {
    hide Run, Advances, Apply;
    var three, five := Advances(t, now, fetched, 3), Advances(t, now, fetched, 5);
    AdvancesConcat(t, now, fetched, 3, 5);
    RunConcat(w, [Call(t, key, ttl)] + three, five);
    assert [Call(t, key, ttl)] + three + five == [Call(t, key, ttl)] + (three + five);
  }

  lemma {:induction false} StaysPut(w: World, t: Thread, now: real, fetched: Outcome, n: nat)
    requires t in w.stages
    requires w.stages[t].Done? || (w.stages[t].Waiting? && w.stages[t].flight !in w.outcomes)
    ensures Run(w, Advances(t, now, fetched, n)) == w
  {
    if n == 0 {
      NoSteps(w, t, now, fetched);
    } else {
      OneAdvance(w, t, now, fetched, n);
      StaysPut(w, t, now, fetched, n - 1);
    }
  }

  /** A waiter whose flight has come to something gets just that in its next step; one may also give up. */
  lemma WaiterIsAnswered(w: World, t: Thread, now: real, fetched: Outcome)
    requires t in w.stages && w.stages[t].Waiting?
    ensures var key, f := w.stages[t].key, w.stages[t].flight;
            && (f in w.outcomes ==>
                  Apply(w, Advance(t, now, fetched)).stages == w.stages[t := Done(key, FromFlight(w.outcomes[f]))])
            && Apply(w, GiveUp(t)) == w.(stages := w.stages[t := Done(key, TimedOut)])
  {
  }
}
