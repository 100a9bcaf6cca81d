/**
 * How processes open a store that may not exist yet
 * (backend/alert_rule_store.py and backend/campaign_store.py, _open_write_connection).
 *
 * Any number of processes interleave their steps and may stop at any point, by error or by crash;
 * stopping gives the write lock back and undoes an open transaction. The contents of a database
 * are the statements that built it: [] is an empty file, and ddl the full schema.
 */
module StoreInitialization {
  type Process = nat
  type Statement = int

  /** failFast: the store that refuses an empty file seen before its own attempt to create it. */
  datatype Config = Config(ddl: seq<Statement>, failFast: bool)

  datatype File = Missing | Present(contents: seq<Statement>)

  datatype Stage =
    | Looked(existed: bool)
    | Ready(owned: bool, existed: bool)
    | Locked(owned: bool, existed: bool)
    | Building(work: seq<Statement>)
    | Opened
    | Stopped

  datatype Lock = Free | Held(holder: Process)

  datatype Event = Made(p: Process) | Ran(p: Process, statement: Statement) | Opens(p: Process, saw: seq<Statement>)

  datatype World = World(file: File, lock: Lock, stages: map<Process, Stage>, log: seq<Event>)

  datatype Step =
    | Look(p: Process)
    | Create(p: Process)
    | Begin(p: Process)
    | Inspect(p: Process, expired: bool)
    | Execute(p: Process)
    | Commit(p: Process)
    | Stop(p: Process)

  function To(w: World, p: Process, s: Stage): World {
    w.(stages := w.stages[p := s])
  }

  function Note(w: World, e: Event): World {
    w.(log := w.log + [e])
  }

  function Release(w: World, p: Process): World {
    if w.lock == Held(p) then w.(lock := Free) else w
  }

  function ApplyCreate(w: World, p: Process, existed: bool): World {
    if w.file.Missing? then Note(To(w, p, Ready(true, existed)).(file := Present([])), Made(p))
    else To(w, p, Ready(false, existed))
  }

  function ApplyInspect(c: Config, w: World, p: Process, owned: bool, existed: bool, expired: bool): World
    requires w.file.Present?
  {
    if w.file.contents == c.ddl then Note(Release(To(w, p, Opened), p), Opens(p, w.file.contents))
    else if w.file.contents != [] then Release(To(w, p, Stopped), p)
    else if owned then To(w, p, Building([]))
    else if (c.failFast && existed) || expired then Release(To(w, p, Stopped), p)
    else Release(To(w, p, Ready(owned, existed)), p)
  }

  /** One step; a step that is not possible changes nothing. */
  function Apply(c: Config, w: World, step: Step): World {
    match step
    case Look(p) => if p in w.stages then w else To(w, p, Looked(w.file.Present?))
    case Create(p) =>
      if p in w.stages && w.stages[p].Looked? then ApplyCreate(w, p, w.stages[p].existed) else w
    case Begin(p) =>
      if p in w.stages && w.stages[p].Ready? && w.lock.Free?
      then To(w, p, Locked(w.stages[p].owned, w.stages[p].existed)).(lock := Held(p)) else w
    case Inspect(p, expired) =>
      if p in w.stages && w.stages[p].Locked? && w.file.Present?
      then ApplyInspect(c, w, p, w.stages[p].owned, w.stages[p].existed, expired) else w
    case Execute(p) =>
      if p in w.stages && w.stages[p].Building? && |w.stages[p].work| < |c.ddl|
      then
        var work := w.stages[p].work;
        Note(To(w, p, Building(work + [c.ddl[|work|]])), Ran(p, c.ddl[|work|]))
      else w
    case Commit(p) =>
      if p in w.stages && w.stages[p].Building? && |w.stages[p].work| == |c.ddl|
      then Note(Release(To(w, p, Opened), p).(file := Present(w.stages[p].work)), Opens(p, w.stages[p].work)) else w
    case Stop(p) => if p in w.stages && !w.stages[p].Opened? then Release(To(w, p, Stopped), p) else w
  }

  function Run(c: Config, w: World, steps: seq<Step>): World
    decreases |steps|
  {
    if steps == [] then w else Run(c, Apply(c, w, steps[0]), steps[1..])
  }

  const FRESH := World(Missing, Free, map[], [])

  /** The schema statements executed so far, by anyone. */
  function Executed(log: seq<Event>): (statements: seq<Statement>)
    ensures |statements| <= |log|
  {
    if log == [] then [] else
      var last := log[|log| - 1];
      Executed(log[..|log| - 1]) + if last.Ran? then [last.statement] else []
  }

  ghost predicate IsMaker(w: World, p: Process) {
    w.log != [] && w.log[0] == Made(p)
  }

  /** Whoever may still initialise made the file, and nothing was executed or committed yet. */
  ghost predicate MayInitialise(w: World, p: Process) {
    IsMaker(w, p) && w.file == Present([]) && Executed(w.log) == []
  }

  ghost predicate ProcessFits(c: Config, w: World, p: Process) {
    if p !in w.stages then w.lock != Held(p) else
    match w.stages[p]
    case Looked(_) => w.lock != Held(p)
    case Ready(owned, _) => w.lock != Held(p) && w.file.Present? && (owned ==> MayInitialise(w, p))
    case Locked(owned, _) => w.lock == Held(p) && w.file.Present? && (owned ==> MayInitialise(w, p))
    case Building(work) =>
      w.lock == Held(p) && IsMaker(w, p) && w.file == Present([]) && Executed(w.log) == work && work <= c.ddl
    case Opened => w.lock != Held(p) && w.file == Present(c.ddl)
    case Stopped => w.lock != Held(p)
  }

  ghost predicate EventFits(c: Config, w: World, i: nat)
    requires i < |w.log|
  {
    match w.log[i]
    case Made(_) => i == 0
    case Ran(p, _) => IsMaker(w, p)
    case Opens(_, saw) => saw == c.ddl && w.file == Present(c.ddl)
  }

  ghost predicate FileFits(c: Config, w: World) {
    match w.file
    case Missing => w.log == []
    case Present(contents) =>
      && w.log != [] && w.log[0].Made? && Executed(w.log) <= c.ddl
      && (contents == [] || (contents == c.ddl && Executed(w.log) == c.ddl))
  }

  ghost predicate Invariant(c: Config, w: World) {
    && FileFits(c, w)
    && (forall p :: ProcessFits(c, w, p))
    && (forall i :: 0 <= i < |w.log| ==> EventFits(c, w, i))
  }

  lemma {:induction false} ExecutedGrows(log: seq<Event>, e: Event)
    ensures Executed(log + [e]) == if e.Ran? then Executed(log) + [e.statement] else Executed(log)
  {
    assert (log + [e])[..|log|] == log;
  }

  // What a step that executes nothing may add to the log.
  ghost predicate AddsNoStatement(log: seq<Event>, next: seq<Event>) {
    next == log || (|next| == |log| + 1 && next == log + [next[|log|]] && !next[|log|].Ran?)
  }

  lemma {:induction false} NothingExecuted(log: seq<Event>, next: seq<Event>)
    requires AddsNoStatement(log, next)
    ensures Executed(next) == Executed(log)
  {
    if next != log {
      ExecutedGrows(log, next[|log|]);
    }
  }

  lemma StepAdds(c: Config, w: World, step: Step)
    requires !step.Execute?
    ensures AddsNoStatement(w.log, Apply(c, w, step).log)
  {
  }

  lemma StepExecutes(c: Config, w: World, step: Step)
    requires !step.Execute?
    ensures Executed(Apply(c, w, step).log) == Executed(w.log)
  {
    StepAdds(c, w, step);
    NothingExecuted(w.log, Apply(c, w, step).log);
  }

  lemma ExecuteExtends(c: Config, w: World, p: Process)
    requires p in w.stages && w.stages[p].Building? && |w.stages[p].work| < |c.ddl|
    ensures Executed(Apply(c, w, Execute(p)).log) == Executed(w.log) + [c.ddl[|w.stages[p].work|]]
  {
    ExecutedGrows(w.log, Ran(p, c.ddl[|w.stages[p].work|]));
  }

  lemma StepKeepsActor(c: Config, w: World, step: Step)
    requires Invariant(c, w) && c.ddl != []
    ensures ProcessFits(c, Apply(c, w, step), step.p)
  {
    hide Executed;
    var p := step.p;
    assert ProcessFits(c, w, p);
    if !step.Execute? {
      StepExecutes(c, w, step);
    } else if p in w.stages && w.stages[p].Building? && |w.stages[p].work| < |c.ddl| {
      ExecuteExtends(c, w, p);
    }
  }

  lemma StepKeepsOthers(c: Config, w: World, step: Step, q: Process)
    requires Invariant(c, w) && c.ddl != [] && q != step.p
    ensures ProcessFits(c, Apply(c, w, step), q)
  {
    hide Executed;
    assert ProcessFits(c, w, step.p) && ProcessFits(c, w, q);
    if !step.Execute? {
      StepExecutes(c, w, step);
    }
  }

  lemma StepKeepsFile(c: Config, w: World, step: Step)
    requires Invariant(c, w) && c.ddl != []
    ensures FileFits(c, Apply(c, w, step))
  {
    hide Executed;
    var p := step.p;
    assert ProcessFits(c, w, p);
    if !step.Execute? {
      StepExecutes(c, w, step);
    } else if p in w.stages && w.stages[p].Building? && |w.stages[p].work| < |c.ddl| {
      ExecuteExtends(c, w, p);
    }
  }

  lemma StepKeepsEvents(c: Config, w: World, step: Step, i: nat)
    requires Invariant(c, w) && i < |Apply(c, w, step).log|
    ensures EventFits(c, Apply(c, w, step), i)
  {
    assert ProcessFits(c, w, step.p);
    if i < |w.log| {
      assert EventFits(c, w, i);
    }
  }

  lemma StepKeepsInvariant(c: Config, w: World, step: Step)
    requires Invariant(c, w) && c.ddl != []
    ensures Invariant(c, Apply(c, w, step))
  {
    StepKeepsFile(c, w, step);
    forall q ensures ProcessFits(c, Apply(c, w, step), q) {
      if q == step.p {
        StepKeepsActor(c, w, step);
      } else {
        StepKeepsOthers(c, w, step, q);
      }
    }
    forall i | 0 <= i < |Apply(c, w, step).log| ensures EventFits(c, Apply(c, w, step), i) {
      StepKeepsEvents(c, w, step, i);
    }
  }

  lemma {:induction false} RunKeepsInvariant(c: Config, w: World, steps: seq<Step>)
    requires Invariant(c, w) && c.ddl != []
    ensures Invariant(c, Run(c, w, steps))
    decreases |steps|
  {
    if steps != [] {
      StepKeepsInvariant(c, w, steps[0]);
      RunKeepsInvariant(c, Apply(c, w, steps[0]), steps[1..]);
    }
  }

  predicate HoldsLock(w: World, p: Process) {
    p in w.stages && (w.stages[p].Locked? || w.stages[p].Building?)
  }

  /**
   * From a missing file: one process at most ever executes schema statements, it is the one
   * that made the file, and it executes each statement once and in order.
   */
  lemma {:induction false} OneInitialiser(c: Config, steps: seq<Step>)
    requires c.ddl != []
    ensures var w := Run(c, FRESH, steps);
            && Executed(w.log) <= c.ddl
            && (forall i :: 0 <= i < |w.log| && w.log[i].Ran? ==> w.log[0] == Made(w.log[i].p))
            && (forall i :: 0 <= i < |w.log| && w.log[i].Made? ==> i == 0)
  {
    var w := Run(c, FRESH, steps);
    RunKeepsInvariant(c, FRESH, steps);
    forall i | 0 <= i < |w.log|
      ensures (w.log[i].Ran? ==> w.log[0] == Made(w.log[i].p)) && (w.log[i].Made? ==> i == 0)
    {
      assert EventFits(c, w, i);
    }
  }

  /** Only an empty file or the full schema is ever committed, and whoever opens saw the full schema. */
  lemma {:induction false} OnlyWholeSchemas(c: Config, steps: seq<Step>)
    requires c.ddl != []
    ensures var w := Run(c, FRESH, steps);
            && (w.file == Missing || w.file == Present([]) || w.file == Present(c.ddl))
            && (w.file == Present(c.ddl) ==> Executed(w.log) == c.ddl)
            && (forall i :: 0 <= i < |w.log| && w.log[i].Opens? ==> w.log[i].saw == c.ddl && w.file == Present(c.ddl))
  {
    var w := Run(c, FRESH, steps);
    RunKeepsInvariant(c, FRESH, steps);
    forall i | 0 <= i < |w.log| && w.log[i].Opens? ensures w.log[i].saw == c.ddl && w.file == Present(c.ddl) {
      assert EventFits(c, w, i);
    }
  }

  /** The write lock keeps readers and the initialiser apart. */
  lemma {:induction false} OneAtATime(c: Config, steps: seq<Step>, p: Process, q: Process)
    requires c.ddl != []
    requires HoldsLock(Run(c, FRESH, steps), p) && HoldsLock(Run(c, FRESH, steps), q)
    ensures p == q
  {
    var w := Run(c, FRESH, steps);
    RunKeepsInvariant(c, FRESH, steps);
    assert ProcessFits(c, w, p) && ProcessFits(c, w, q);
  }

  // A file nobody alive has the right to initialise is never touched again.

  predicate Owns(w: World, p: Process) {
    p in w.stages &&
    match w.stages[p]
    case Ready(owned, _) => owned
    case Locked(owned, _) => owned
    case Building(_) => true
    case _ => false
  }

  ghost predicate Ownerless(w: World) {
    w.file.Present? && forall p :: !Owns(w, p)
  }

  /** Later events, if the contents can never change, are openings that saw those contents. */
  ghost predicate OnlyOpenings(c: Config, file: File, events: seq<Event>) {
    && (events != [] ==> file == Present(c.ddl))
    && forall i :: 0 <= i < |events| ==> events[i].Opens? && events[i].saw == c.ddl
  }

  lemma OpeningsConcat(c: Config, file: File, a: seq<Event>, b: seq<Event>)
    requires OnlyOpenings(c, file, a) && OnlyOpenings(c, file, b)
    ensures OnlyOpenings(c, file, a + b)
  {
  }

  lemma StepLeavesAlone(c: Config, w: World, step: Step)
    requires Ownerless(w)
    ensures var next := Apply(c, w, step);
            && Ownerless(next) && next.file == w.file
            && w.log <= next.log && OnlyOpenings(c, w.file, next.log[|w.log|..])
  {
    assert !Owns(w, step.p);
    forall q ensures !Owns(Apply(c, w, step), q) {
      assert !Owns(w, q);
    }
  }

  lemma {:induction false} OwnerlessIsLeftAlone(c: Config, w: World, steps: seq<Step>)
    requires Ownerless(w)
    ensures var end := Run(c, w, steps);
            && end.file == w.file
            && w.log <= end.log && OnlyOpenings(c, w.file, end.log[|w.log|..])
    decreases |steps|
  {
    if steps != [] {
      var next, end := Apply(c, w, steps[0]), Run(c, w, steps);
      StepLeavesAlone(c, w, steps[0]);
      OwnerlessIsLeftAlone(c, next, steps[1..]);
      var now, later := next.log[|w.log|..], end.log[|next.log|..];
      OpeningsConcat(c, w.file, now, later);
      assert end.log[|w.log|..] == now + later;
    }
  }

  /** A file that was there before everyone is never written, whatever it holds. */
  lemma {:induction false} ExistingFileIsNeverWritten(c: Config, contents: seq<Statement>, steps: seq<Step>)
    ensures var w := Run(c, FRESH.(file := Present(contents)), steps);
            w.file == Present(contents) && OnlyOpenings(c, Present(contents), w.log)
  {
    var w := FRESH.(file := Present(contents));
    OwnerlessIsLeftAlone(c, w, steps);
    assert Run(c, w, steps).log[|w.log|..] == Run(c, w, steps).log;
  }

  /** If the process that made the file stops before its COMMIT, nobody ever initialises or opens it. */
  lemma {:induction false} DeadMakerMeansNever(c: Config, before: seq<Step>, after: seq<Step>, maker: Process)
    requires c.ddl != []
    requires var w := Run(c, FRESH, before);
             w.file == Present([]) && IsMaker(w, maker) && maker in w.stages && w.stages[maker].Stopped?
    ensures var w, end := Run(c, FRESH, before), Run(c, FRESH, before + after);
            end.file == Present([]) && end.log == w.log
            && forall i :: 0 <= i < |end.log| ==> !end.log[i].Opens?
  {
    var w := Run(c, FRESH, before);
    RunKeepsInvariant(c, FRESH, before);
    forall p ensures !Owns(w, p) {
      assert ProcessFits(c, w, p);
    }
    RunConcat(c, FRESH, before, after);
    OwnerlessIsLeftAlone(c, w, after);
    var end := Run(c, w, after);
    assert end.log == w.log + end.log[|w.log|..];
    forall i | 0 <= i < |w.log| ensures !w.log[i].Opens? {
      assert EventFits(c, w, i);
    }
  }

  lemma {:induction false} RunConcat(c: Config, w: World, a: seq<Step>, b: seq<Step>)
    ensures Run(c, w, a + b) == Run(c, Run(c, w, a), b)
    decreases |a|
  {
    if a == [] {
      assert a + b == b;
    } else {
      assert (a + b)[1..] == a[1..] + b;
      RunConcat(c, Apply(c, w, a[0]), a[1..], b);
    }
  }

  // Waiting.

  /** The process initialises, has opened, or has given up: it will not look at the file again. */
  predicate Past(w: World, p: Process) {
    p in w.stages && (w.stages[p].Building? || w.stages[p].Opened? || w.stages[p].Stopped?)
  }

  predicate Inspects(w: World, step: Step, p: Process) {
    step.Inspect? && step.p == p && p in w.stages && w.stages[p].Locked? && w.file.Present?
  }

  /** For each inspection that p makes in a run, whether its time had expired. */
  function Inspections(c: Config, w: World, steps: seq<Step>, p: Process): (flags: seq<bool>)
    ensures |flags| <= |steps|
    decreases |steps|
  {
    if steps == [] then []
    else (if Inspects(w, steps[0], p) then [steps[0].expired] else [])
         + Inspections(c, Apply(c, w, steps[0]), steps[1..], p)
  }

  lemma StepStaysPast(c: Config, w: World, step: Step, p: Process)
    requires Past(w, p)
    ensures Past(Apply(c, w, step), p) && !Inspects(w, step, p)
    ensures !w.stages[p].Building? ==> Apply(c, w, step).stages[p] == w.stages[p]
  {
  }

  lemma {:induction false} StaysPast(c: Config, w: World, steps: seq<Step>, p: Process)
    requires Past(w, p)
    ensures Past(Run(c, w, steps), p) && Inspections(c, w, steps, p) == []
    ensures !w.stages[p].Building? ==> Run(c, w, steps).stages[p] == w.stages[p]
    decreases |steps|
  {
    if steps != [] {
      StepStaysPast(c, w, steps[0], p);
      StaysPast(c, Apply(c, w, steps[0]), steps[1..], p);
    }
  }

  /**
   * The wait is bounded: of all the inspections of one process only the last can come after its
   * time has expired, and after such a one the process never waits again, however the run goes on.
   */
  lemma {:induction false} ExpiredOnlyOnce(c: Config, w: World, steps: seq<Step>, p: Process)
    ensures var flags := Inspections(c, w, steps, p);
            forall i :: 0 <= i < |flags| && flags[i] ==> i == |flags| - 1 && Past(Run(c, w, steps), p)
    decreases |steps|
  {
    if steps != [] {
      var next := Apply(c, w, steps[0]);
      if Inspects(w, steps[0], p) && steps[0].expired {
        StaysPast(c, next, steps[1..], p);
      } else {
        ExpiredOnlyOnce(c, next, steps[1..], p);
        assert !Inspects(w, steps[0], p) ==>
            Inspections(c, w, steps, p) == Inspections(c, next, steps[1..], p);
      }
    }
  }

  /** The file was there when p first looked, before its own attempt to create it. */
  predicate SawFile(w: World, p: Process) {
    p in w.stages &&
    match w.stages[p]
    case Looked(existed) => existed
    case Ready(_, existed) => existed
    case Locked(_, existed) => existed
    case _ => false
  }

  lemma StepKeepsSaw(c: Config, w: World, step: Step, p: Process)
    requires c.failFast && SawFile(w, p)
    ensures var next := Apply(c, w, step);
            if Inspects(w, step, p) then Past(next, p) else SawFile(next, p) || Past(next, p)
  {
  }

  lemma {:induction false} SawFileLooksOnce(c: Config, w: World, steps: seq<Step>, p: Process)
    requires c.failFast && SawFile(w, p)
    ensures |Inspections(c, w, steps, p)| <= 1
    ensures Inspections(c, w, steps, p) != [] ==> Past(Run(c, w, steps), p)
    decreases |steps|
  {
    if steps != [] {
      var next := Apply(c, w, steps[0]);
      StepKeepsSaw(c, w, steps[0], p);
      if Past(next, p) {
        StaysPast(c, next, steps[1..], p);
      } else {
        SawFileLooksOnce(c, next, steps[1..], p);
      }
    }
  }

  /**
   * In the store that fails fast, a process that finds the file at its first look inspects it once
   * at most, in any run: it opens it or stops, without waiting.
   */
  lemma {:induction false} FailFastNeverWaits(c: Config, w: World, steps: seq<Step>, p: Process)
    requires c.failFast && w.file.Present? && p !in w.stages
    ensures var start := Apply(c, w, Look(p));
            |Inspections(c, start, steps, p)| <= 1
            && (Inspections(c, start, steps, p) != [] ==> Past(Run(c, start, steps), p))
  {
    SawFileLooksOnce(c, Apply(c, w, Look(p)), steps, p);
  }

  predicate SomeoneOpened(w: World) {
    exists i :: 0 <= i < |w.log| && w.log[i].Opens?
  }

  /** The full schema is there exactly when someone has opened it. */
  lemma {:induction false} OpenedMeansWhole(c: Config, w: World, steps: seq<Step>)
    requires c.ddl != [] && Invariant(c, w) && (w.file == Present(c.ddl) <==> SomeoneOpened(w))
    ensures var end := Run(c, w, steps); end.file == Present(c.ddl) <==> SomeoneOpened(end)
    decreases |steps|
  {
    if steps != [] {
      var next := Apply(c, w, steps[0]);
      StepKeepsInvariant(c, w, steps[0]);
      StepOpens(c, w, steps[0]);
      OpenedMeansWhole(c, next, steps[1..]);
    }
  }

  lemma StepOpens(c: Config, w: World, step: Step)
    requires c.ddl != [] && Invariant(c, w) && (w.file == Present(c.ddl) <==> SomeoneOpened(w))
    ensures var next := Apply(c, w, step); next.file == Present(c.ddl) <==> SomeoneOpened(next)
  {
    var next := Apply(c, w, step);
    StepKeepsInvariant(c, w, step);
    StepExtendsLog(c, w, step);
    if i :| 0 <= i < |next.log| && next.log[i].Opens? {
      assert EventFits(c, next, i);
    }
    if i :| 0 <= i < |w.log| && w.log[i].Opens? {
      assert next.log[i].Opens?;
    }
    if next.file == Present(c.ddl) && w.file != next.file {
      assert next.log[|next.log| - 1].Opens?;
    }
  }

  lemma StepExtendsLog(c: Config, w: World, step: Step)
    ensures w.log <= Apply(c, w, step).log
    ensures Apply(c, w, step).file == w.file || Apply(c, w, step).file == Present([])
            || (Apply(c, w, step).log != [] && Apply(c, w, step).log[|Apply(c, w, step).log| - 1].Opens?)
  {
  }

  /**
   * What becomes of a waiter whose time has expired: it has opened the store for good if the
   * schema was committed by then, and has stopped for good otherwise.
   */
  lemma {:induction false} WaitersFate(c: Config, steps: seq<Step>, after: seq<Step>, p: Process)
    requires c.ddl != []
    requires var w := Run(c, FRESH, steps); p in w.stages && w.stages[p].Locked? && !w.stages[p].owned
    ensures var w, end := Run(c, FRESH, steps), Run(c, FRESH, steps + ([Inspect(p, true)] + after));
            p in end.stages && end.stages[p] == if SomeoneOpened(w) then Opened else Stopped
  {
    var w := Run(c, FRESH, steps);
    RunKeepsInvariant(c, FRESH, steps);
    assert ProcessFits(c, w, p);
    OpenedMeansWhole(c, FRESH, steps);
    RunConcat(c, FRESH, steps, [Inspect(p, true)] + after);
    assert ([Inspect(p, true)] + after)[1..] == after;
    StaysPast(c, Apply(c, w, Inspect(p, true)), after, p);
  }

  /** Once the maker has committed, every later inspection, in time or not, opens the full schema. */
  lemma {:induction false} CommitEndsTheWait(c: Config, before: seq<Step>, after: seq<Step>,
                                             maker: Process, p: Process, expired: bool)
    requires c.ddl != []
    requires var w := Run(c, FRESH, before);
             maker in w.stages && w.stages[maker].Building? && |w.stages[maker].work| == |c.ddl|
    requires var end := Run(c, FRESH, before + ([Commit(maker)] + after)); p in end.stages && end.stages[p].Locked?
    ensures var end := Run(c, FRESH, before + ([Commit(maker)] + after));
            Apply(c, end, Inspect(p, expired)).stages[p] == Opened
  {
    var w := Run(c, FRESH, before);
    RunKeepsInvariant(c, FRESH, before);
    assert ProcessFits(c, w, maker);
    RunConcat(c, FRESH, before, [Commit(maker)]);
    assert before + ([Commit(maker)] + after) == before + [Commit(maker)] + after;
    CommittedSchemaOpens(c, before + [Commit(maker)], after, p, expired);
  }

  /** A committed schema stays, and every later inspection of it opens. */
  lemma {:induction false} CommittedSchemaOpens(c: Config, before: seq<Step>, after: seq<Step>,
                                                p: Process, expired: bool)
    requires c.ddl != [] && Run(c, FRESH, before).file == Present(c.ddl)
    requires var w := Run(c, FRESH, before + after); p in w.stages && w.stages[p].Locked?
    ensures var w := Run(c, FRESH, before + after);
            w.file == Present(c.ddl) && Apply(c, w, Inspect(p, expired)).stages[p].Opened?
  {
    var w := Run(c, FRESH, before);
    RunKeepsInvariant(c, FRESH, before);
    forall q ensures !Owns(w, q) {
      assert ProcessFits(c, w, q);
    }
    RunConcat(c, FRESH, before, after);
    OwnerlessIsLeftAlone(c, w, after);
  }

  // Getting there: what the maker does when it goes on.

  function Builds(p: Process, n: nat): seq<Step> {
    if n == 0 then [] else [Execute(p)] + Builds(p, n - 1)
  }

  /** The rest of an initialisation by a maker that holds the write lock. */
  function Finishing(c: Config, p: Process, expired: bool): seq<Step> {
    [Inspect(p, expired)] + (Builds(p, |c.ddl|) + [Commit(p)])
  }

  lemma {:induction false} RunFirst(c: Config, w: World, step: Step, steps: seq<Step>)
    ensures Run(c, w, [step] + steps) == Run(c, Apply(c, w, step), steps)
  {
    assert ([step] + steps)[1..] == steps;
  }

  lemma ExecuteOne(c: Config, w: World, p: Process)
    requires p in w.stages && w.stages[p].Building? && w.stages[p].work < c.ddl
    ensures var next := Apply(c, w, Execute(p));
            && p in next.stages && next.stages[p].Building? && next.stages[p].work <= c.ddl
            && |next.stages[p].work| == |w.stages[p].work| + 1
  {
  }

  lemma {:induction false} BuildsTheSchema(c: Config, w: World, p: Process, n: nat)
    requires p in w.stages && w.stages[p].Building? && w.stages[p].work <= c.ddl && n == |c.ddl| - |w.stages[p].work|
    ensures var end := Run(c, w, Builds(p, n)); p in end.stages && end.stages[p] == Building(c.ddl)
    decreases n
  {
    if n > 0 {
      hide Apply;
      ExecuteOne(c, w, p);
      RunFirst(c, w, Execute(p), Builds(p, n - 1));
      BuildsTheSchema(c, Apply(c, w, Execute(p)), p, n - 1);
    }
  }

  lemma CommitOne(c: Config, w: World, p: Process)
    requires p in w.stages && w.stages[p] == Building(c.ddl)
    ensures var end := Apply(c, w, Commit(p));
            p in end.stages && end.stages[p] == Opened && end.file == Present(c.ddl)
  {
  }

  /** A maker that holds the lock can always finish alone: it builds the schema, commits and has opened it. */
  lemma {:induction false} MakerCanFinish(c: Config, before: seq<Step>, p: Process, expired: bool)
    requires c.ddl != []
    requires var w := Run(c, FRESH, before); p in w.stages && w.stages[p].Locked? && w.stages[p].owned
    ensures var end := Run(c, FRESH, before + Finishing(c, p, expired));
            p in end.stages && end.stages[p] == Opened && end.file == Present(c.ddl)
  {
    var w := Run(c, FRESH, before);
    RunKeepsInvariant(c, FRESH, before);
    assert ProcessFits(c, w, p);
    var building := Apply(c, w, Inspect(p, expired));
    assert p in building.stages && building.stages[p] == Building([]);
    hide Apply, Run, Builds;
    var built := Run(c, building, Builds(p, |c.ddl|));
    BuildsTheSchema(c, building, p, |c.ddl|);
    CommitOne(c, built, p);
    RunFirst(c, built, Commit(p), []);
    assert [Commit(p)] + [] == [Commit(p)];
    NoSteps(c, Apply(c, built, Commit(p)));
    RunConcat(c, building, Builds(p, |c.ddl|), [Commit(p)]);
    RunFirst(c, w, Inspect(p, expired), Builds(p, |c.ddl|) + [Commit(p)]);
    RunConcat(c, FRESH, before, Finishing(c, p, expired));
  }

  lemma {:induction false} NoSteps(c: Config, w: World)
    ensures Run(c, w, []) == w
  {
  }

  /** So a process that runs alone on a missing file creates it, initialises it and opens the full schema. */
  lemma {:induction false} AloneOpens(c: Config, p: Process, expired: bool)
    requires c.ddl != []
    ensures var end := Run(c, FRESH, [Look(p), Create(p), Begin(p)] + Finishing(c, p, expired));
            p in end.stages && end.stages[p] == Opened && end.file == Present(c.ddl)
  {
    var w1 := Apply(c, FRESH, Look(p));
    var w2 := Apply(c, w1, Create(p));
    var w3 := Apply(c, w2, Begin(p));
    var steps := [Look(p)] + ([Create(p)] + ([Begin(p)] + []));
    RunFirst(c, FRESH, Look(p), [Create(p)] + ([Begin(p)] + []));
    RunFirst(c, w1, Create(p), [Begin(p)] + []);
    RunFirst(c, w2, Begin(p), []);
    NoSteps(c, w3);
    assert steps == [Look(p), Create(p), Begin(p)];
    assert p in w3.stages && w3.stages[p] == Locked(true, false);
    MakerCanFinish(c, steps, p, expired);
  }

  // What one inspection does, and what it leaves for the others.

  /** A process that stops gives the lock back and leaves the file and the log as they are. */
  lemma StoppingReleases(c: Config, w: World, p: Process)
    requires p in w.stages && !w.stages[p].Opened?
    ensures Apply(c, w, Stop(p)) ==
            w.(stages := w.stages[p := Stopped], lock := if w.lock == Held(p) then Free else w.lock)
  {
  }

  /** On a file that holds something other than the full schema every inspection stops, and the lock is free again. */
  lemma {:induction false} ForeignFileStops(c: Config, contents: seq<Statement>, steps: seq<Step>,
                                            p: Process, expired: bool)
    requires c.ddl != [] && contents != [] && contents != c.ddl
    requires var w := Run(c, FRESH.(file := Present(contents)), steps); p in w.stages && w.stages[p].Locked?
    ensures var end := Apply(c, Run(c, FRESH.(file := Present(contents)), steps), Inspect(p, expired));
            end.stages[p] == Stopped && end.lock == Free && end.file == Present(contents)
  {
    var start := FRESH.(file := Present(contents));
    ExistingFileIsNeverWritten(c, contents, steps);
    LockStays(c, start, steps, p);
  }

  /**
   * An empty file that was there beforehand is never initialised: in the store that fails fast an inspection
   * stops if the process had seen the file, otherwise it stops when its time has expired and waits before.
   */
  lemma {:induction false} EmptyFileStaysEmpty(c: Config, steps: seq<Step>, p: Process, expired: bool)
    requires c.ddl != []
    requires var w := Run(c, FRESH.(file := Present([])), steps); p in w.stages && w.stages[p].Locked?
    ensures var w := Run(c, FRESH.(file := Present([])), steps);
            var end := Apply(c, w, Inspect(p, expired));
            && end.file == Present([]) && end.log == [] && end.lock == Free
            && end.stages[p] == if expired || (c.failFast && w.stages[p].existed) then Stopped
                                else Ready(false, w.stages[p].existed)
  {
    var start := FRESH.(file := Present([]));
    ExistingFileIsNeverWritten(c, [], steps);
    LockStays(c, start, steps, p);
    NobodyOwns(c, start, steps, p);
  }

  lemma {:induction false} LockStays(c: Config, w: World, steps: seq<Step>, p: Process)
    requires HoldsLock(w, p) ==> w.lock == Held(p)
    ensures HoldsLock(Run(c, w, steps), p) ==> Run(c, w, steps).lock == Held(p)
    decreases |steps|
  {
    hide Apply, HoldsLock;
    if steps != [] {
      StepKeepsLock(c, w, steps[0], p);
      LockStays(c, Apply(c, w, steps[0]), steps[1..], p);
    }
  }

  lemma StepKeepsLock(c: Config, w: World, step: Step, p: Process)
    requires HoldsLock(w, p) ==> w.lock == Held(p)
    ensures HoldsLock(Apply(c, w, step), p) ==> Apply(c, w, step).lock == Held(p)
  {
  }

  /** On a file that is there already nobody gets the right to initialise it. */
  lemma {:induction false} NobodyOwns(c: Config, w: World, steps: seq<Step>, p: Process)
    requires Ownerless(w)
    ensures !Owns(Run(c, w, steps), p)
    decreases |steps|
  {
    if steps != [] {
      StepLeavesAlone(c, w, steps[0]);
      NobodyOwns(c, Apply(c, w, steps[0]), steps[1..], p);
    }
  }

  predicate AllBy(steps: seq<Step>, q: Process) {
    forall i :: 0 <= i < |steps| ==> steps[i].p == q
  }

  lemma {:induction false} OthersUntouched(c: Config, w: World, steps: seq<Step>, q: Process)
    requires AllBy(steps, q) && (w.lock == Free || w.lock == Held(q))
    ensures var end := Run(c, w, steps);
            && (end.lock == Free || end.lock == Held(q))
            && forall p :: p != q ==> (p in end.stages <==> p in w.stages)
                                      && (p in w.stages ==> end.stages[p] == w.stages[p])
    decreases |steps|
  {
    if steps != [] {
      assert steps[0].p == q;
      OthersUntouched(c, Apply(c, w, steps[0]), steps[1..], q);
    }
  }

  lemma {:induction false} FinishingIsBy(c: Config, q: Process, n: nat)
    ensures AllBy(Builds(q, n), q)
  {
    if n > 0 {
      FinishingIsBy(c, q, n - 1);
    }
  }

  /**
   * A waiter in time lets the maker finish and then succeeds: it finds the empty file, gives the lock back, the
   * maker takes it, builds and commits, and the waiter's next inspection opens the full schema, in time or not.
   */
  lemma {:induction false} WaiterSucceeds(c: Config, before: seq<Step>, p: Process, q: Process, e: bool, late: bool)
    requires c.ddl != [] && p != q
    requires var w := Run(c, FRESH, before);
             && p in w.stages && w.stages[p].Locked? && !w.stages[p].owned && !(c.failFast && w.stages[p].existed)
             && q in w.stages && w.stages[q].Ready? && w.stages[q].owned
    ensures var end := Run(c, FRESH, before + [Inspect(p, false), Begin(q)] + Finishing(c, q, e)
                                     + [Begin(p), Inspect(p, late)]);
            && p in end.stages && end.stages[p] == Opened && q in end.stages && end.stages[q] == Opened
            && end.file == Present(c.ddl)
  {
    var w := Run(c, FRESH, before);
    RunKeepsInvariant(c, FRESH, before);
    assert ProcessFits(c, w, p) && ProcessFits(c, w, q);
    var w1 := Apply(c, w, Inspect(p, false));
    assert w1.lock == Free && w1.stages[p].Ready? && w1.file == w.file == Present([]);
    var w2 := Apply(c, w1, Begin(q));
    TwoSteps(c, w, Inspect(p, false), Begin(q));
    var ready := before + [Inspect(p, false), Begin(q)];
    RunConcat(c, FRESH, before, [Inspect(p, false), Begin(q)]);
    MakerCanFinish(c, ready, q, e);
    var finishing := Finishing(c, q, e);
    FinishingIsBy(c, q, |c.ddl|);
    OthersUntouched(c, w2, finishing, q);
    RunConcat(c, FRESH, ready, finishing);
    var w3 := Run(c, FRESH, ready + finishing);
    RunKeepsInvariant(c, FRESH, ready + finishing);
    assert ProcessFits(c, w3, q);
    TwoSteps(c, w3, Begin(p), Inspect(p, late));
    RunConcat(c, FRESH, ready + finishing, [Begin(p), Inspect(p, late)]);
  }

  lemma {:induction false} TwoSteps(c: Config, w: World, a: Step, b: Step)
    ensures Run(c, w, [a, b]) == Apply(c, Apply(c, w, a), b)
  {
    assert [a, b][1..] == [b] && [b][1..] == [];
    assert Run(c, Apply(c, w, a), [b]) == Apply(c, Apply(c, w, a), b);
  }
}
