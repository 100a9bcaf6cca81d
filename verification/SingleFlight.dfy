/**
 * Sharing one fetch between overlapping misses (backend/app.py, TTLCache.get_or_fetch).
 *
 * Threads interleave step by step. The flight lock is held from the lookup to the decision, and
 * again for the removal; the cache's own lock covers single calls, which are single steps here.
 * Callers may also read and write the same cache directly at any moment (TTLCache.get and set).
 */
module SingleFlight {
  import opened TtlCache

  type Thread = nat
  type Flight = nat

  /** What a fetch came to, and hence what its flight delivers. */
  datatype Outcome = Value(value: TtlCache.Value) | Error(error: int)

  datatype Result = FromCache(value: TtlCache.Value) | FromFlight(outcome: Outcome) | TimedOut

  datatype Stage =
    | Called(key: Key, ttl: real)
    | Looking(key: Key, ttl: real)
    | Missed(key: Key)
    | Waiting(key: Key, flight: Flight)
    | Fetching(key: Key, flight: Flight)
    | Fetched(key: Key, flight: Flight, outcome: Outcome)
    | Stored(key: Key, flight: Flight, outcome: Outcome)
    | Resolved(key: Key, flight: Flight, outcome: Outcome)
    | Removing(key: Key, flight: Flight, outcome: Outcome)
    | Done(key: Key, result: Result)

  datatype Lock = Free | Held(holder: Thread)

  datatype World = World(
    cache: seq<Entry>, cap: nat, lock: Lock,
    flights: map<Key, Flight>, outcomes: map<Flight, Outcome>, next: Flight,
    stages: map<Thread, Stage>)

  /** Advance: the thread takes its next step, at this time and, if it is fetching, with this result. */
  datatype Step =
    | Call(t: Thread, key: Key, ttl: real)
    | Advance(t: Thread, now: real, fetched: Outcome)
    | GiveUp(t: Thread)
    | DirectGet(t: Thread, key: Key, ttl: real, now: real)
    | DirectSet(t: Thread, key: Key, value: TtlCache.Value, now: real)

  function To(w: World, t: Thread, s: Stage): World {
    w.(stages := w.stages[t := s])
  }

  function ApplyLook(w: World, t: Thread, key: Key, ttl: real, now: real): World {
    var after := w.(cache := AfterGet(w.cache, key, ttl, now));
    match GetAnswer(w.cache, key, ttl, now)
    case Hit(v) => To(after, t, Done(key, FromCache(v))).(lock := Free)
    case Miss => To(after, t, Missed(key))
  }

  function ApplyDecide(w: World, t: Thread, key: Key): World {
    if key in w.flights then To(w, t, Waiting(key, w.flights[key])).(lock := Free)
    else To(w, t, Fetching(key, w.next)).(lock := Free, flights := w.flights[key := w.next], next := w.next + 1)
  }

  /** Only a fetched value is stored; an error goes straight to the waiters. */
  function ApplyStore(w: World, t: Thread, key: Key, flight: Flight, outcome: Outcome, now: real): World {
    match outcome
    case Value(v) => To(w, t, Stored(key, flight, outcome)).(cache := AfterSet(w.cache, key, v, now, w.cap))
    case Error(_) => To(w, t, Stored(key, flight, outcome))
  }

  function ApplyRemove(w: World, t: Thread, key: Key, flight: Flight, outcome: Outcome): World {
    var after := To(w, t, Done(key, FromFlight(outcome))).(lock := Free);
    if key in w.flights && w.flights[key] == flight then after.(flights := w.flights - {key}) else after
  }

  function ApplyAdvance(w: World, t: Thread, now: real, fetched: Outcome): World
    requires t in w.stages
  {
    match w.stages[t]
    case Called(key, ttl) => if w.lock.Free? then To(w, t, Looking(key, ttl)).(lock := Held(t)) else w
    case Looking(key, ttl) => ApplyLook(w, t, key, ttl, now)
    case Missed(key) => ApplyDecide(w, t, key)
    case Waiting(key, f) => if f in w.outcomes then To(w, t, Done(key, FromFlight(w.outcomes[f]))) else w
    case Fetching(key, f) => To(w, t, Fetched(key, f, fetched))
    case Fetched(key, f, o) => ApplyStore(w, t, key, f, o, now)
    case Stored(key, f, o) => To(w, t, Resolved(key, f, o)).(outcomes := w.outcomes[f := o])
    case Resolved(key, f, o) => if w.lock.Free? then To(w, t, Removing(key, f, o)).(lock := Held(t)) else w
    case Removing(key, f, o) => ApplyRemove(w, t, key, f, o)
    case Done(_, _) => w
  }

  /** One step of one thread; a step that is not possible changes nothing. */
  function Apply(w: World, step: Step): World {
    match step
    case Call(t, key, ttl) => if t in w.stages then w else To(w, t, Called(key, ttl))
    case Advance(t, now, fetched) => if t in w.stages then ApplyAdvance(w, t, now, fetched) else w
    case GiveUp(t) => if t in w.stages && w.stages[t].Waiting? then To(w, t, Done(w.stages[t].key, TimedOut)) else w
    case DirectGet(_, key, ttl, now) => w.(cache := AfterGet(w.cache, key, ttl, now))
    case DirectSet(_, key, value, now) => w.(cache := AfterSet(w.cache, key, value, now, w.cap))
  }

  function Run(w: World, steps: seq<Step>): World
    decreases |steps|
  {
    if steps == [] then w else Run(Apply(w, steps[0]), steps[1..])
  }

  function Start(cap: nat): World {
    World([], cap, Free, map[], map[], 0, map[])
  }

  // The invariant.

  /** The flight a thread owns, and what it delivers once that is settled. */
  datatype Ownership = None | Owns(key: Key, flight: Flight, settled: Settled)
  datatype Settled = Open | Settled(outcome: Outcome)

  function Owned(w: World, t: Thread): Ownership {
    if t !in w.stages then None else
    match w.stages[t]
    case Fetching(k, f) => Owns(k, f, Open)
    case Fetched(k, f, _) => Owns(k, f, Open)
    case Stored(k, f, _) => Owns(k, f, Open)
    case Resolved(k, f, o) => Owns(k, f, Settled(o))
    case Removing(k, f, o) => Owns(k, f, Settled(o))
    case _ => None
  }

  predicate InLock(s: Stage) {
    s.Looking? || s.Missed? || s.Removing?
  }

  /** A thread is inside the flight lock exactly when it holds it. */
  ghost predicate LockFits(w: World, t: Thread) {
    w.lock == Held(t) <==> t in w.stages && InLock(w.stages[t])
  }

  /** A flight stays in the table until its owner removes it, and is resolved once its owner says so. */
  ghost predicate FlightFits(w: World, t: Thread) {
    match Owned(w, t)
    case None => true
    case Owns(k, f, settled) =>
      && k in w.flights && w.flights[k] == f
      && match settled
         case Open => f !in w.outcomes
         case Settled(o) => f in w.outcomes && w.outcomes[f] == o
  }

  /** A miss still means: not in the cache, unless a flight for the key is there to join. */
  ghost predicate MissFits(w: World, t: Thread) {
    t in w.stages && w.stages[t].Missed? ==>
      w.stages[t].key in w.flights || !Has(w.cache, w.stages[t].key)
  }

  /** Where a flight is mentioned: in the table, or by a thread that owns it or waits for it. */
  datatype Place = Table | Thread(t: Thread)

  predicate Mentions(w: World, place: Place, f: Flight, k: Key) {
    match place
    case Table => k in w.flights && w.flights[k] == f
    case Thread(t) => t in w.stages && StageMentions(w.stages[t], f, k)
  }

  predicate StageMentions(s: Stage, f: Flight, k: Key) {
    (s.Waiting? || s.Fetching? || s.Fetched? || s.Stored? || s.Resolved? || s.Removing?) && s.flight == f && s.key == k
  }

  /** The flight was opened for this key: it is mentioned with no other. */
  ghost predicate Belongs(w: World, f: Flight, k: Key) {
    f < w.next && forall place, l :: Mentions(w, place, f, l) ==> l == k
  }

  ghost predicate KeysFit(w: World) {
    forall place, f, k :: Mentions(w, place, f, k) ==> Belongs(w, f, k)
  }

  ghost predicate FlightsFit(w: World) {
    && (forall k, l :: k in w.flights && l in w.flights && w.flights[k] == w.flights[l] ==> k == l)
    && (forall k :: k in w.flights ==> w.flights[k] < w.next)
    && (forall f :: f in w.outcomes ==> f < w.next)
  }

  predicate ShareFlight(w: World, t: Thread, u: Thread) {
    Owned(w, t).Owns? && Owned(w, u).Owns? && Owned(w, t).flight == Owned(w, u).flight
  }

  ghost predicate OneOwner(w: World) {
    forall t, u :: ShareFlight(w, t, u) ==> t == u
  }

  ghost predicate Invariant(w: World) {
    && FlightsFit(w) && OneOwner(w) && KeysFit(w)
    && (forall t :: LockFits(w, t)) && (forall t :: FlightFits(w, t))
  }

  lemma {:induction false} WithoutOther(s: seq<Entry>, k: Key, other: Key)
    requires !Has(s, other)
    ensures !Has(Without(s, k), other)
  {
    if i :| 0 <= i < |Without(s, k)| && Without(s, k)[i].key == other {
      WithoutMembers(s, k, Without(s, k)[i]);
    }
  }

  /** A lookup never brings a key into the cache, and a miss leaves it out. */
  lemma LookKeepsAbsent(s: seq<Entry>, k: Key, ttl: real, now: real, other: Key)
    ensures !Has(s, other) ==> !Has(AfterGet(s, k, ttl, now), other)
    ensures GetAnswer(s, k, ttl, now).Miss? ==> !Has(AfterGet(s, k, ttl, now), k)
  {
    WithoutRemoves(s, k);
    if !Has(s, other) {
      WithoutOther(s, k, other);
    }
  }

  lemma StoreKeepsAbsent(s: seq<Entry>, k: Key, v: TtlCache.Value, now: real, cap: nat, other: Key)
    requires !Has(s, other) && other != k
    ensures !Has(AfterSet(s, k, v, now, cap), other)
  {
    WithoutOther(s, k, other);
  }

  predicate SameStage(w: World, n: World, u: Thread) {
    (u in w.stages <==> u in n.stages) && (u in w.stages ==> n.stages[u] == w.stages[u])
  }

  lemma {:induction false} OthersUnmoved(w: World, step: Step, u: Thread)
    requires u != step.t
    ensures SameStage(w, Apply(w, step), u)
  {
    hide AfterGet, AfterSet, GetAnswer;
    if step.Advance? && step.t in w.stages {
      match w.stages[step.t]
      case Looking(_, _) =>
      case Missed(_) =>
      case _ =>
    }
  }

  /** The acting thread takes the free lock, gives back its own, or leaves the lock alone. */
  lemma {:induction false} ActorKeepsLock(w: World, step: Step)
    requires LockFits(w, step.t)
    ensures LockFits(Apply(w, step), step.t)
    ensures var lock := Apply(w, step).lock;
            lock == w.lock || (w.lock.Free? && lock == Held(step.t)) || (w.lock == Held(step.t) && lock.Free?)
  {
    hide AfterGet, AfterSet, GetAnswer;
  }

  lemma {:induction false} StepKeepsLock(w: World, step: Step, u: Thread)
    requires LockFits(w, step.t) && LockFits(w, u)
    ensures LockFits(Apply(w, step), u)
  {
    hide Apply;
    ActorKeepsLock(w, step);
    if u != step.t {
      OthersUnmoved(w, step, u);
    }
  }

  /**
   * A flight for a missed key cannot leave the table while the lock is held, and nothing but a direct
   * write of that very key fills the cache.
   */
  lemma {:induction false} StepKeepsMiss(w: World, step: Step, u: Thread)
    requires LockFits(w, step.t) && LockFits(w, u) && FlightFits(w, step.t) && MissFits(w, u)
    requires !Overtakes(w, step, u)
    ensures MissFits(Apply(w, step), u)
  {
    hide AfterGet, AfterSet;
    var t := step.t;
    if step.DirectGet? {
      LookKeepsMisses(w, u, step.key, step.ttl, step.now);
    } else if step.DirectSet? {
      WriteKeepsMisses(w, u, step.key, step.value, step.now);
    } else if step.Advance? && t in w.stages {
      var s := w.stages[t];
      if s.Looking? {
        LookKeepsAbsent(w.cache, s.key, s.ttl, step.now, s.key);
      }
      if u in w.stages && w.stages[u].Missed? && s.Fetched? && s.outcome.Value? && s.key != w.stages[u].key {
        WriteKeepsMisses(w, u, s.key, s.outcome.value, step.now);
      }
    }
  }

  /** A direct write of the key that a thread has just missed, before it decides. */
  predicate Overtakes(w: World, step: Step, u: Thread) {
    step.DirectSet? && u in w.stages && w.stages[u].Missed? && w.stages[u].key == step.key
  }

  lemma LookKeepsMisses(w: World, u: Thread, k: Key, ttl: real, now: real)
    requires MissFits(w, u)
    ensures MissFits(w.(cache := AfterGet(w.cache, k, ttl, now)), u)
  {
    if u in w.stages && w.stages[u].Missed? {
      LookKeepsAbsent(w.cache, k, ttl, now, w.stages[u].key);
    }
  }

  lemma WriteKeepsMisses(w: World, u: Thread, k: Key, v: TtlCache.Value, now: real)
    requires MissFits(w, u) && (u in w.stages && w.stages[u].Missed? ==> w.stages[u].key != k)
    ensures MissFits(w.(cache := AfterSet(w.cache, k, v, now, w.cap)), u)
  {
    if u in w.stages && w.stages[u].Missed? && !Has(w.cache, w.stages[u].key) {
      StoreKeepsAbsent(w.cache, k, v, now, w.cap, w.stages[u].key);
    }
  }

  // What a step does to the flights, seen without the cache and the stages.

  datatype Change = Quiet | Opens(key: Key) | Settles(outcome: Outcome) | Closes

  ghost predicate Changes(w: World, n: World, t: Thread, change: Change) {
    ActorChanges(w, n, t, change) && forall u :: u != t ==> Owned(n, u) == Owned(w, u)
  }

  predicate ActorChanges(w: World, n: World, t: Thread, change: Change) {
    match change
    case Quiet => n.flights == w.flights && n.outcomes == w.outcomes && n.next == w.next && Owned(n, t) == Owned(w, t)
    case Opens(k) =>
      && Owned(w, t).None? && k !in w.flights && Owned(n, t) == Owns(k, w.next, Open)
      && n.flights == w.flights[k := w.next] && n.outcomes == w.outcomes && n.next == w.next + 1
    case Settles(o) =>
      && Owned(w, t).Owns? && Owned(w, t).settled.Open? && Owned(n, t) == Owned(w, t).(settled := Settled(o))
      && n.flights == w.flights && n.outcomes == w.outcomes[Owned(w, t).flight := o] && n.next == w.next
    case Closes =>
      && Owned(w, t).Owns? && Owned(w, t).settled.Settled? && Owned(n, t).None?
      && (Owned(w, t).key in w.flights && w.flights[Owned(w, t).key] == Owned(w, t).flight ==>
            n.flights == w.flights - {Owned(w, t).key})
      && n.outcomes == w.outcomes && n.next == w.next
  }

  /** The steps that open, settle or close a flight. */
  predicate MovesFlight(w: World, step: Step) {
    step.Advance? && step.t in w.stages &&
    (w.stages[step.t].Missed? || w.stages[step.t].Stored? || w.stages[step.t].Removing?)
  }

  lemma {:induction false} QuietActor(w: World, step: Step)
    requires !MovesFlight(w, step)
    ensures ActorChanges(w, Apply(w, step), step.t, Quiet)
  {
    hide AfterGet, AfterSet, GetAnswer;
  }

  lemma {:induction false} ClassifyActor(w: World, step: Step) returns (change: Change)
    ensures ActorChanges(w, Apply(w, step), step.t, change)
  {
    hide AfterGet, AfterSet, GetAnswer;
    if MovesFlight(w, step) {
      match w.stages[step.t]
      case Missed(k) => change := if k in w.flights then Quiet else Opens(k);
      case Stored(_, _, o) => change := Settles(o);
      case Removing(_, _, _) => change := Closes;
    } else {
      QuietActor(w, step);
      change := Quiet;
    }
  }

  lemma {:induction false} Classify(w: World, step: Step) returns (change: Change)
    ensures Changes(w, Apply(w, step), step.t, change)
  {
    change := ClassifyActor(w, step);
    forall u | u != step.t ensures Owned(Apply(w, step), u) == Owned(w, u) {
      OthersUnmoved(w, step, u);
    }
  }

  lemma {:induction false} ChangeKeepsFlights(w: World, n: World, t: Thread, change: Change)
    requires FlightsFit(w) && FlightFits(w, t) && Changes(w, n, t, change)
    ensures FlightsFit(n)
  {
  }

  lemma {:induction false} ChangeKeepsFlight(w: World, n: World, t: Thread, change: Change, u: Thread)
    requires FlightsFit(w) && FlightFits(w, t) && FlightFits(w, u) && Changes(w, n, t, change)
    requires ShareFlight(w, t, u) ==> t == u
    ensures FlightFits(n, u)
  {
  }

  lemma {:induction false} ChangeKeepsOneOwner(w: World, n: World, t: Thread, change: Change, u: Thread, v: Thread)
    requires FlightsFit(w) && FlightFits(w, u) && FlightFits(w, v) && Changes(w, n, t, change)
    requires ShareFlight(w, u, v) ==> u == v
    requires ShareFlight(n, u, v)
    ensures u == v
  {
  }

  lemma {:induction false} TableStems(w: World, step: Step, f: Flight, k: Key)
    requires Mentions(Apply(w, step), Table, f, k)
    ensures Mentions(w, Table, f, k) || (f == w.next && Opening(w, step, k))
  {
    hide AfterGet, AfterSet, GetAnswer;
  }

  lemma {:induction false} ActorStems(w: World, step: Step, f: Flight, k: Key)
    requires Mentions(Apply(w, step), Place.Thread(step.t), f, k)
    ensures Mentions(w, Place.Thread(step.t), f, k) || Mentions(w, Table, f, k) || (f == w.next && Opening(w, step, k))
  {
    hide AfterGet, AfterSet, GetAnswer;
    if step.Advance? && step.t in w.stages {
      match w.stages[step.t]
      case Missed(_) =>
      case Done(_, _) =>
      case _ =>
    }
  }

  /** A mention after a step stems from one before it, unless the step has opened the flight. */
  lemma {:induction false} MentionsStem(w: World, step: Step, place: Place, f: Flight, k: Key)
    requires Mentions(Apply(w, step), place, f, k)
    ensures Mentions(w, place, f, k) || Mentions(w, Table, f, k) || (f == w.next && Opening(w, step, k))
  {
    hide Apply;
    if place == Place.Thread(step.t) {
      ActorStems(w, step, f, k);
    } else if place.Thread? {
      OthersUnmoved(w, step, place.t);
    } else {
      TableStems(w, step, f, k);
    }
  }

  predicate Opening(w: World, step: Step, k: Key) {
    step.Advance? && step.t in w.stages && w.stages[step.t] == Missed(k) && k !in w.flights
  }

  lemma {:induction false} BelongsStays(w: World, step: Step, f: Flight, k: Key)
    requires Belongs(w, f, k)
    ensures Belongs(Apply(w, step), f, k)
  {
    var n := Apply(w, step);
    NextGrows(w, step);
    forall place, l | Mentions(n, place, f, l) ensures l == k {
      MentionsStem(w, step, place, f, l);
    }
  }

  lemma {:induction false} NextGrows(w: World, step: Step)
    ensures Apply(w, step).next == w.next || Apply(w, step).next == w.next + 1
    ensures (exists k :: Opening(w, step, k)) ==> Apply(w, step).next == w.next + 1
  {
  }

  lemma NotYetMentioned(w: World, place: Place, k: Key)
    requires KeysFit(w)
    ensures !Mentions(w, place, w.next, k)
  {
  }

  lemma {:induction false} StepKeepsKeys(w: World, step: Step)
    requires KeysFit(w)
    ensures KeysFit(Apply(w, step))
  {
    var n := Apply(w, step);
    NextGrows(w, step);
    forall place, f, k | Mentions(n, place, f, k) ensures Belongs(n, f, k) {
      MentionsStem(w, step, place, f, k);
      if Mentions(w, place, f, k) || Mentions(w, Table, f, k) {
        BelongsStays(w, step, f, k);
      } else {
        forall other, l | Mentions(n, other, f, l) ensures l == k {
          MentionsStem(w, step, other, f, l);
          NotYetMentioned(w, other, l);
          NotYetMentioned(w, Table, l);
        }
      }
    }
  }

  lemma {:induction false} StepKeepsInvariant(w: World, step: Step)
    requires Invariant(w)
    ensures Invariant(Apply(w, step))
  {
    var t, n := step.t, Apply(w, step);
    var change := Classify(w, step);
    ChangeKeepsFlights(w, n, t, change);
    forall u, v | ShareFlight(n, u, v) ensures u == v {
      ChangeKeepsOneOwner(w, n, t, change, u, v);
    }
    forall u ensures LockFits(n, u) {
      StepKeepsLock(w, step, u);
    }
    forall u ensures FlightFits(n, u) {
      ChangeKeepsFlight(w, n, t, change, u);
    }
    StepKeepsKeys(w, step);
  }

  lemma {:induction false} RunKeepsInvariant(w: World, steps: seq<Step>)
    requires Invariant(w)
    ensures Invariant(Run(w, steps))
    decreases |steps|
  {
    if steps != [] {
      StepKeepsInvariant(w, steps[0]);
      RunKeepsInvariant(Apply(w, steps[0]), steps[1..]);
    }
  }

  // What callers can rely on.

  predicate IsFetching(w: World, t: Thread, key: Key) {
    t in w.stages && w.stages[t].Fetching? && w.stages[t].key == key
  }

  /** In every interleaving at most one fetch for a key is running. */
  lemma {:induction false} OneFetchPerKey(cap: nat, steps: seq<Step>, key: Key, t: Thread, u: Thread)
    requires IsFetching(Run(Start(cap), steps), t, key) && IsFetching(Run(Start(cap), steps), u, key)
    ensures t == u
  {
    var w := Run(Start(cap), steps);
    RunKeepsInvariant(Start(cap), steps);
    assert FlightFits(w, t) && FlightFits(w, u);
    assert ShareFlight(w, t, u);
  }

  lemma {:induction false} FetchBegins(w: World, step: Step, t: Thread, key: Key)
    requires !IsFetching(w, t, key) && IsFetching(Apply(w, step), t, key)
    ensures t in w.stages && w.stages[t] == Missed(key) && key !in w.flights && Apply(w, step).cache == w.cache
  {
    if t != step.t {
      OthersUnmoved(w, step, t);
    }
  }

  /** Some direct write has overtaken the thread's decision, and its key has been in the cache ever since. */
  ghost predicate StillThere(w: World, steps: seq<Step>, t: Thread, key: Key) {
    exists i :: 0 <= i < |steps| && Overtakes(Run(w, steps[..i]), steps[i], t) && StaysFrom(w, steps, i, key)
  }

  ghost predicate StaysFrom(w: World, steps: seq<Step>, i: nat, key: Key)
    requires i < |steps|
  {
    steps[i].DirectSet? && steps[i].key == key
    && forall j :: i < j <= |steps| ==> Has(Run(w, steps[..j]).cache, key)
  }

  lemma {:induction false} RunSplits(w: World, steps: seq<Step>)
    requires steps != []
    ensures Run(w, steps) == Apply(Run(w, steps[..|steps| - 1]), steps[|steps| - 1])
  {
    var n := |steps| - 1;
    assert steps == steps[..n] + [steps[n]];
    RunConcat(w, steps[..n], [steps[n]]);
    assert [steps[n]][1..] == [];
  }

  lemma {:induction false} CachedThoughMissed(w: World, steps: seq<Step>, t: Thread, key: Key)
    requires Invariant(w) && MissFits(w, t)
    requires var end := Run(w, steps);
             t in end.stages && end.stages[t] == Missed(key) && key !in end.flights && Has(end.cache, key)
    ensures StillThere(w, steps, t, key)
    decreases |steps|
  {
    if steps != [] {
      var n := |steps| - 1;
      var before, last := Run(w, steps[..n]), steps[n];
      RunSplits(w, steps);
      RunKeepsInvariant(w, steps[..n]);
      assert LockFits(before, last.t) && LockFits(before, t) && FlightFits(before, last.t);
      assert steps[..|steps|] == steps;
      if Overtakes(before, last, t) {
        StaysMissed(before, last, t);
        assert StaysFrom(w, steps, n, key);
      } else if MissFits(before, t) {
        StepKeepsMiss(before, last, t);
        assert false;
      } else {
        StaysMissed(before, last, t);
        CachedThoughMissed(w, steps[..n], t, key);
        StillThereLater(w, steps, t, key);
      }
    }
  }

  lemma {:induction false} StillThereLater(w: World, steps: seq<Step>, t: Thread, key: Key)
    requires steps != [] && StillThere(w, steps[..|steps| - 1], t, key) && Has(Run(w, steps).cache, key)
    ensures StillThere(w, steps, t, key)
  {
    hide Apply, Run, Has, Overtakes;
    var front := steps[..|steps| - 1];
    var i :| 0 <= i < |front| && Overtakes(Run(w, front[..i]), front[i], t) && StaysFrom(w, front, i, key);
    assert front[..i] == steps[..i] && front[i] == steps[i];
    forall j | i < j <= |steps| ensures Has(Run(w, steps[..j]).cache, key) {
      if j < |steps| {
        assert front[..j] == steps[..j];
      } else {
        assert steps[..j] == steps;
      }
    }
    assert StaysFrom(w, steps, i, key);
  }

  lemma {:induction false} StaysMissed(w: World, step: Step, t: Thread)
    requires t in w.stages && w.stages[t].Missed? && t in Apply(w, step).stages && Apply(w, step).stages[t].Missed?
    ensures Apply(w, step).stages[t] == w.stages[t]
  {
    if t != step.t {
      OthersUnmoved(w, step, t);
    }
  }

  /**
   * A new fetch begins only when no flight for its key is there to join. Its key is in the cache at that
   * very moment exactly when someone wrote it directly since the thread looked it up, and it was not
   * evicted or dropped again.
   */
  lemma {:induction false} FetchOnlyWhatIsMissing(cap: nat, steps: seq<Step>, step: Step, t: Thread, key: Key)
    requires !IsFetching(Run(Start(cap), steps), t, key)
    requires IsFetching(Apply(Run(Start(cap), steps), step), t, key)
    ensures key !in Run(Start(cap), steps).flights
    ensures Has(Run(Start(cap), steps).cache, key) <==> StillThere(Start(cap), steps, t, key)
  {
    FetchBegins(Run(Start(cap), steps), step, t, key);
    if Has(Run(Start(cap), steps).cache, key) {
      CachedThoughMissed(Start(cap), steps, t, key);
    } else {
      assert steps[..|steps|] == steps;
    }
  }

  lemma {:induction false} RunThen(w: World, step: Step, steps: seq<Step>)
    ensures Run(w, [step] + steps) == Run(Apply(w, step), steps)
  {
    assert ([step] + steps)[1..] == steps;
  }

  lemma {:induction false} FirstMiss(t: Thread, key: Key, ttl: real, now: real, other: Outcome)
    ensures Run(Start(8), [Call(t, key, ttl)] + ([Advance(t, now, other)] + [Advance(t, now, other)]))
         == Start(8).(stages := map[t := Missed(key)], lock := Held(t))
  {
    var w1 := Apply(Start(8), Call(t, key, ttl));
    var w2 := Apply(w1, Advance(t, now, other));
    RunThen(Start(8), Call(t, key, ttl), [Advance(t, now, other)] + [Advance(t, now, other)]);
    RunThen(w1, Advance(t, now, other), [Advance(t, now, other)]);
    assert [Advance(t, now, other)][1..] == [];
    assert w2 == Start(8).(stages := map[t := Looking(key, ttl)], lock := Held(t));
  }

  /** The exception occurs: a value written between the lookup and the decision does not stop the fetch. */
  lemma {:induction false} DirectWriteIsOvertaken(key: Key, value: TtlCache.Value, other: Outcome)
    ensures var steps := [Call(0, key, 900.0)] + ([Advance(0, 0.0, other)] + [Advance(0, 0.0, other)])
                         + ([DirectSet(1, key, value, 0.0)] + [Advance(0, 0.0, other)]);
            var w := Run(Start(8), steps);
            IsFetching(w, 0, key) && GetAnswer(w.cache, key, 900.0, 0.0) == Hit(value)
  {
    var missed := Start(8).(stages := map[0 := Missed(key)], lock := Held(0));
    FirstMiss(0, key, 900.0, 0.0, other);
    RunConcat(Start(8), [Call(0, key, 900.0)] + ([Advance(0, 0.0, other)] + [Advance(0, 0.0, other)]),
              [DirectSet(1, key, value, 0.0)] + [Advance(0, 0.0, other)]);
    RunThen(missed, DirectSet(1, key, value, 0.0), [Advance(0, 0.0, other)]);
    assert [Advance(0, 0.0, other)][1..] == [];
    var cache := [Entry(key, 0.0, value)];
    assert AfterSet([], key, value, 0.0, 8) == cache;
    assert cache[0].key == key && Lookup(cache, key) == cache[0];
  }

  /** What a flight delivers is decided once. */
  lemma {:induction false} StepKeepsOutcomes(w: World, step: Step, f: Flight)
    requires FlightFits(w, step.t) && f in w.outcomes
    ensures f in Apply(w, step).outcomes && Apply(w, step).outcomes[f] == w.outcomes[f]
  {
    var change := Classify(w, step);
  }

  lemma {:induction false} OutcomesAreFinal(w: World, steps: seq<Step>, f: Flight)
    requires Invariant(w) && f in w.outcomes
    ensures f in Run(w, steps).outcomes && Run(w, steps).outcomes[f] == w.outcomes[f]
    decreases |steps|
  {
    if steps != [] {
      StepKeepsOutcomes(w, steps[0], f);
      StepKeepsInvariant(w, steps[0]);
      OutcomesAreFinal(Apply(w, steps[0]), steps[1..], f);
    }
  }

  lemma {:induction false} RunConcat(w: World, a: seq<Step>, b: seq<Step>)
    ensures Run(w, a + b) == Run(Run(w, a), b)
    decreases |a|
  {
    if a == [] {
      assert a + b == b;
    } else {
      assert (a + b)[1..] == a[1..] + b;
      RunConcat(Apply(w, a[0]), a[1..], b);
    }
  }

  lemma {:induction false} BelongsForGood(w: World, steps: seq<Step>, f: Flight, k: Key)
    requires Belongs(w, f, k)
    ensures Belongs(Run(w, steps), f, k)
    decreases |steps|
  {
    if steps != [] {
      BelongsStays(w, steps[0], f, k);
      BelongsForGood(Apply(w, steps[0]), steps[1..], f, k);
    }
  }

  /**
   * A waiter that is answered by its flight waits for the key that the owner of that flight fetched, and
   * gets exactly what the owner got: whenever the owner has resolved, before or after, the outcomes agree.
   */
  lemma {:induction false} WaitersGetTheOwnersOutcome(cap: nat, before: seq<Step>, after: seq<Step>,
                                                      owner: Thread, waiter: Thread, now: real, fetched: Outcome)
    requires var w := Run(Start(cap), before);
             owner in w.stages && w.stages[owner].Resolved?
    requires var w, end := Run(Start(cap), before), Run(Start(cap), before + after);
             waiter in end.stages && end.stages[waiter].Waiting? && end.stages[waiter].flight == w.stages[owner].flight
    ensures var w, end := Run(Start(cap), before), Run(Start(cap), before + after);
            var key, outcome := w.stages[owner].key, w.stages[owner].outcome;
            && end.stages[waiter].key == key
            && Apply(end, Advance(waiter, now, fetched)).stages[waiter] == Done(key, FromFlight(outcome))
  {
    hide Apply, Run;
    var w, end := Run(Start(cap), before), Run(Start(cap), before + after);
    var f, key := w.stages[owner].flight, w.stages[owner].key;
    StartsWell(cap);
    RunKeepsInvariant(Start(cap), before);
    assert FlightFits(w, owner);
    RunConcat(Start(cap), before, after);
    OutcomesAreFinal(w, after, f);
    assert Mentions(w, Place.Thread(owner), f, key);
    BelongsForGood(w, after, f, key);
    assert Mentions(end, Place.Thread(waiter), f, end.stages[waiter].key);
    Answered(end, waiter, now, fetched);
  }

  lemma {:induction false} StartsWell(cap: nat)
    ensures Invariant(Start(cap))
  {
  }

  lemma {:induction false} Answered(w: World, t: Thread, now: real, fetched: Outcome)
    requires t in w.stages && w.stages[t].Waiting? && w.stages[t].flight in w.outcomes
    ensures var s := w.stages[t];
            Apply(w, Advance(t, now, fetched)).stages[t] == Done(s.key, FromFlight(w.outcomes[s.flight]))
  {
  }

  // Where cached values come from.

  /** The thread fetched this value for this key and stored it. */
  predicate Delivered(s: Stage, key: Key, value: TtlCache.Value) {
    match s
    case Stored(k, _, o) => k == key && o == Value(value)
    case Resolved(k, _, o) => k == key && o == Value(value)
    case Removing(k, _, o) => k == key && o == Value(value)
    case Done(k, r) => k == key && r == FromFlight(Value(value))
    case _ => false
  }

  ghost predicate Backed(w: World, e: Entry) {
    exists t :: t in w.stages && Delivered(w.stages[t], e.key, e.value)
  }

  lemma {:induction false} StepKeepsDelivered(w: World, step: Step, t: Thread, key: Key, value: TtlCache.Value)
    requires t in w.stages && Delivered(w.stages[t], key, value)
    ensures t in Apply(w, step).stages && Delivered(Apply(w, step).stages[t], key, value)
  {
    if t != step.t {
      OthersUnmoved(w, step, t);
    } else {
      ActorStaysDelivered(w, step, key, value);
    }
  }

  lemma {:induction false} ActorStaysDelivered(w: World, step: Step, key: Key, value: TtlCache.Value)
    requires step.t in w.stages && Delivered(w.stages[step.t], key, value)
    ensures step.t in Apply(w, step).stages && Delivered(Apply(w, step).stages[step.t], key, value)
  {
    var s := w.stages[step.t];
    assert s.Stored? || s.Resolved? || s.Removing? || s.Done?;
  }

  predicate Writes(step: Step, e: Entry) {
    step.DirectSet? && e == Entry(step.key, step.now, step.value)
  }

  lemma GetKeepsMembers(s: seq<Entry>, k: Key, ttl: real, now: real, e: Entry)
    ensures e in AfterGet(s, k, ttl, now) ==> e in s
  {
    WithoutMembers(s, k, e);
  }

  lemma SetAddsOne(s: seq<Entry>, k: Key, v: TtlCache.Value, now: real, cap: nat, e: Entry)
    ensures e in AfterSet(s, k, v, now, cap) ==> e in s || e == Entry(k, now, v)
  {
    WithoutMembers(s, k, e);
  }

  lemma {:induction false} StepCaches(w: World, step: Step, e: Entry)
    requires e in Apply(w, step).cache
    ensures e in w.cache || Writes(step, e) ||
            (step.t in Apply(w, step).stages && Delivered(Apply(w, step).stages[step.t], e.key, e.value))
  {
    hide AfterGet, AfterSet, GetAnswer;
    var t := step.t;
    if step.DirectGet? {
      GetKeepsMembers(w.cache, step.key, step.ttl, step.now, e);
    } else if step.DirectSet? {
      SetAddsOne(w.cache, step.key, step.value, step.now, w.cap, e);
    } else if step.Advance? && t in w.stages {
      var s := w.stages[t];
      if s.Looking? {
        GetKeepsMembers(w.cache, s.key, s.ttl, step.now, e);
      } else if s.Fetched? && s.outcome.Value? {
        SetAddsOne(w.cache, s.key, s.outcome.value, step.now, w.cap, e);
      }
    }
  }

  lemma {:induction false} StepKeepsBacked(w: World, step: Step, e: Entry)
    requires Backed(w, e)
    ensures Backed(Apply(w, step), e)
  {
    var t :| t in w.stages && Delivered(w.stages[t], e.key, e.value);
    StepKeepsDelivered(w, step, t, e.key, e.value);
  }

  /**
   * Failures are never cached: every entry holds a value that some thread fetched for its key, or that
   * was written directly at the entry's time.
   */
  lemma {:induction false} OnlyFetchedValuesAreCached(cap: nat, steps: seq<Step>, e: Entry)
    requires e in Run(Start(cap), steps).cache
    ensures Backed(Run(Start(cap), steps), e) || exists i :: 0 <= i < |steps| && Writes(steps[i], e)
    decreases |steps|
  {
    if steps != [] {
      var n := |steps| - 1;
      var before := Run(Start(cap), steps[..n]);
      RunSplits(Start(cap), steps);
      StepCaches(before, steps[n], e);
      if e in before.cache {
        OnlyFetchedValuesAreCached(cap, steps[..n], e);
        if Backed(before, e) {
          StepKeepsBacked(before, steps[n], e);
        } else {
          var i :| 0 <= i < n && Writes(steps[..n][i], e);
          assert Writes(steps[i], e);
        }
      }
    }
  }
}
