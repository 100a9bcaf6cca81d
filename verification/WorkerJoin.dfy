/**
 * The deadline-bounded join of capability workers
 * (backend/campaign_critical_data_runtime.py, _capability_results).
 * One worker per declared network dependency; they run in any interleaving, and time only moves forward.
 */
module WorkerJoin {
  type Dependency = string
  type Answer = int
  type Failure = int

  datatype Outcome = Returned(answer: Answer) | Raised(failure: Failure)

  /** How a worker ended: refused admission, outcome recorded in time, or too late. */
  datatype Fate = Refused | Recorded(outcome: Outcome) | Late

  datatype Stage = Waiting | Spawned | Running | Finished(outcome: Outcome) | Ended(fate: Fate)

  /** The request: its network dependencies and the deadline of the network budget. */
  datatype Request = Request(network: seq<Dependency>, deadline: int)

  datatype World = World(
    clock: int, launched: nat, launching: bool, closed: bool,
    stages: seq<Stage>, results: map<Dependency, Answer>, started: set<Dependency>, errors: seq<Failure>)

  datatype Step =
    | Tick(passing: nat)
    | Launch
    | Admit(i: nat)
    | Finish(i: nat, outcome: Outcome)
    | Record(i: nat)
    | Close

  function Begin(q: Request, clock: int): World {
    World(clock, 0, true, false, seq(|q.network|, i => Waiting), map[], {}, [])
  }

  function To(w: World, i: nat, s: Stage): World
    requires i < |w.stages|
  {
    w.(stages := w.stages[i := s])
  }

  function ApplyRecord(q: Request, w: World, i: nat, outcome: Outcome): World
    requires i < |w.stages| == |q.network|
  {
    if w.closed || w.clock > q.deadline then To(w, i, Ended(Late)) else
    match outcome
    case Returned(a) => To(w, i, Ended(Recorded(outcome))).(results := w.results[q.network[i] := a])
    case Raised(f) => To(w, i, Ended(Recorded(outcome))).(errors := w.errors + [f])
  }

  /** The caller may stop waiting once every started thread is finished, or the deadline has come. */
  predicate MayClose(q: Request, w: World) {
    !w.launching && !w.closed &&
    (w.clock >= q.deadline || forall i :: 0 <= i < |w.stages| && i < w.launched ==> w.stages[i].Ended?)
  }

  /** One step; a step that is not possible changes nothing. */
  function Apply(q: Request, w: World, step: Step): World
    requires |w.stages| == |q.network|
    ensures |Apply(q, w, step).stages| == |q.network|
  {
    match step
    case Tick(passing) => w.(clock := w.clock + passing)
    case Launch =>
      if !w.launching then w
      else if w.launched >= |q.network| || w.clock >= q.deadline then w.(launching := false)
      else To(w, w.launched, Spawned).(launched := w.launched + 1)
    case Admit(i) =>
      if i >= |w.stages| || !w.stages[i].Spawned? then w
      else if w.closed || w.clock >= q.deadline then To(w, i, Ended(Refused))
      else To(w, i, Running).(started := w.started + {q.network[i]})
    case Finish(i, outcome) =>
      if i < |w.stages| && w.stages[i].Running? then To(w, i, Finished(outcome)) else w
    case Record(i) =>
      if i < |w.stages| && w.stages[i].Finished? then ApplyRecord(q, w, i, w.stages[i].outcome) else w
    case Close => if MayClose(q, w) then w.(closed := true) else w
  }

  function Run(q: Request, w: World, steps: seq<Step>): World
    requires |w.stages| == |q.network|
    ensures |Run(q, w, steps).stages| == |q.network|
    decreases |steps|
  {
    if steps == [] then w else Run(q, Apply(q, w, steps[0]), steps[1..])
  }

  // The answer, assembled after closing in the declared order.

  /** The inline evaluation of the price reference may raise; the network entries may not. */
  datatype Entry = Inline(outcome: Outcome) | Own(answer: Answer) | TimedOut | NotEvaluated

  function EntryOf(w: World, price: Dependency, inline: Outcome, d: Dependency): Entry {
    if d == price then Inline(inline)
    else if d in w.results then Own(w.results[d])
    else if d in w.started then TimedOut
    else NotEvaluated
  }

  /** Malformed: the entry names another dependency or another date than the one asked for. */
  datatype Report = Failed(failure: Failure) | Malformed(d: Dependency) | Entries(entries: seq<Entry>)

  predicate Blocks(valid: (Dependency, Entry) -> bool, d: Dependency, e: Entry) {
    (e.Inline? && e.outcome.Raised?) || !valid(d, e)
  }

  function Refusal(d: Dependency, e: Entry): Report {
    if e.Inline? && e.outcome.Raised? then Failed(e.outcome.failure) else Malformed(d)
  }

  /** The network dependencies are the declared ones other than the price reference, in order. */
  function Network(declared: seq<Dependency>, price: Dependency): (n: seq<Dependency>)
    ensures forall d :: d in n <==> d in declared && d != price
  {
    if declared == [] then [] else
      assert declared == [declared[0]] + declared[1..];
      (if declared[0] == price then [] else [declared[0]]) + Network(declared[1..], price)
  }

  /**
   * The first recorded failure, or else the entries in declared order, unless one of them raises or is
   * malformed: then the first such one decides. The price reference is evaluated anew, with an outcome of
   * its own, at every position where it is declared.
   */
  method Assemble(w: World, declared: seq<Dependency>, price: Dependency, inline: nat -> Outcome,
                  valid: (Dependency, Entry) -> bool)
    returns (report: Report)
    ensures w.errors != [] ==> report == Failed(w.errors[0])
    ensures w.errors == [] ==>
      (report.Entries? <==>
       forall i :: 0 <= i < |declared| ==> !Blocks(valid, declared[i], EntryOf(w, price, inline(i), declared[i])))
    ensures report.Entries? ==> |report.entries| == |declared|
    ensures report.Entries? ==>
      forall i :: 0 <= i < |declared| ==> report.entries[i] == EntryOf(w, price, inline(i), declared[i])
    ensures w.errors == [] && !report.Entries? ==>
      exists k :: 0 <= k < |declared| && report == Refusal(declared[k], EntryOf(w, price, inline(k), declared[k]))
                  && Blocks(valid, declared[k], EntryOf(w, price, inline(k), declared[k]))
                  && forall j :: 0 <= j < k ==> !Blocks(valid, declared[j], EntryOf(w, price, inline(j), declared[j]))
  {
    if w.errors != [] {
      return Failed(w.errors[0]);
    }
    var entries: seq<Entry> := [];
    for i := 0 to |declared|
      invariant |entries| == i
      invariant forall j :: 0 <= j < i ==> entries[j] == EntryOf(w, price, inline(j), declared[j])
      invariant forall j :: 0 <= j < i ==> !Blocks(valid, declared[j], EntryOf(w, price, inline(j), declared[j]))
    {
      var d := declared[i];
      var entry := NotEvaluated;
      if d == price {
        if inline(i).Raised? {
          return Failed(inline(i).failure);
        }
        entry := Inline(inline(i));
      } else if d in w.results {
        entry := Own(w.results[d]);
      } else if d in w.started {
        entry := TimedOut;
      }
      if !valid(d, entry) {
        return Malformed(d);
      }
      entries := entries + [entry];
    }
    report := Entries(entries);
  }

  // The invariant.

  predicate Admitted(s: Stage) {
    s.Running? || s.Finished? || (s.Ended? && !s.fate.Refused?)
  }

  ghost predicate WorkerFits(q: Request, w: World, i: nat)
    requires i < |w.stages| == |q.network|
  {
    && (Admitted(w.stages[i]) ==> q.network[i] in w.started)
    && (w.stages[i].Waiting? <==> w.launched <= i)
    && (w.stages[i] == Ended(Refused) || w.stages[i] == Ended(Late) ==> w.clock >= q.deadline)
    && (w.stages[i].Ended? && w.stages[i].fate.Recorded? && w.stages[i].fate.outcome.Returned? ==>
          q.network[i] in w.results)
  }

  /** Whatever is in the books was put there by a worker for that dependency. */
  ghost predicate BooksFit(q: Request, w: World)
    requires |w.stages| == |q.network|
  {
    && (forall d :: d in w.started ==> exists i :: 0 <= i < |w.stages| && q.network[i] == d && Admitted(w.stages[i]))
    && (forall d :: d in w.results ==>
          exists i :: 0 <= i < |w.stages| && q.network[i] == d &&
                      w.stages[i] == Ended(Recorded(Returned(w.results[d]))))
  }

  ghost predicate Invariant(q: Request, w: World) {
    && |w.stages| == |q.network| && w.launched <= |q.network|
    && (forall i :: 0 <= i < |w.stages| ==> WorkerFits(q, w, i))
    && BooksFit(q, w)
    && (w.closed ==> !w.launching)
    && (w.closed && w.clock < q.deadline ==> forall i :: 0 <= i < |w.stages| ==> w.stages[i].Ended?)
    && (!w.launching ==> w.launched == |q.network| || w.clock >= q.deadline)
  }

  lemma {:induction false} StepKeepsWorkers(q: Request, w: World, step: Step)
    requires Invariant(q, w)
    ensures var n := Apply(q, w, step); forall i :: 0 <= i < |n.stages| ==> WorkerFits(q, n, i)
  {
    var n := Apply(q, w, step);
    forall i | 0 <= i < |n.stages| ensures WorkerFits(q, n, i) {
      assert WorkerFits(q, w, i);
    }
  }

  /** An admitted worker stays admitted, and an ended one stays as it ended. */
  lemma {:induction false} StageStays(q: Request, w: World, step: Step, i: nat)
    requires Invariant(q, w) && i < |w.stages|
    ensures Admitted(w.stages[i]) ==> Admitted(Apply(q, w, step).stages[i])
    ensures w.stages[i].Ended? ==> Apply(q, w, step).stages[i] == w.stages[i]
  {
    assert WorkerFits(q, w, i);
  }

  /** What one step writes into the books. */
  lemma {:induction false} StepWrites(q: Request, w: World, step: Step, d: Dependency)
    requires Invariant(q, w)
    ensures var n := Apply(q, w, step);
            && (d in n.started && d !in w.started ==>
                  step.Admit? && step.i < |n.stages| && q.network[step.i] == d && Admitted(n.stages[step.i]))
            && (d in n.results && !(d in w.results && n.results[d] == w.results[d]) ==>
                  step.Record? && step.i < |n.stages| && q.network[step.i] == d &&
                  n.stages[step.i] == Ended(Recorded(Returned(n.results[d]))))
  {
  }

  lemma {:induction false} StepKeepsBooks(q: Request, w: World, step: Step)
    requires Invariant(q, w)
    ensures BooksFit(q, Apply(q, w, step))
  {
    var n := Apply(q, w, step);
    forall d | d in n.started
      ensures exists i :: 0 <= i < |n.stages| && q.network[i] == d && Admitted(n.stages[i])
    {
      StepWrites(q, w, step, d);
      if d in w.started {
        var i :| 0 <= i < |w.stages| && q.network[i] == d && Admitted(w.stages[i]);
        StageStays(q, w, step, i);
      }
    }
    forall d | d in n.results
      ensures exists i :: 0 <= i < |n.stages| && q.network[i] == d &&
                          n.stages[i] == Ended(Recorded(Returned(n.results[d])))
    {
      StepWrites(q, w, step, d);
      if d in w.results && n.results[d] == w.results[d] {
        var i :| 0 <= i < |w.stages| && q.network[i] == d && w.stages[i] == Ended(Recorded(Returned(w.results[d])));
        StageStays(q, w, step, i);
      }
    }
  }

  lemma {:induction false} StepKeepsInvariant(q: Request, w: World, step: Step)
    requires Invariant(q, w)
    ensures Invariant(q, Apply(q, w, step))
  {
    StepKeepsWorkers(q, w, step);
    StepKeepsBooks(q, w, step);
    if step.Close? {
      forall i | 0 <= i < |w.stages| ensures WorkerFits(q, w, i) {
      }
    }
  }

  lemma {:induction false} RunKeepsInvariant(q: Request, w: World, steps: seq<Step>)
    requires Invariant(q, w)
    ensures Invariant(q, Run(q, w, steps))
    decreases |steps|
  {
    if steps != [] {
      StepKeepsInvariant(q, w, steps[0]);
      RunKeepsInvariant(q, Apply(q, w, steps[0]), steps[1..]);
    }
  }

  // What the caller gets.

  predicate DistinctNetwork(q: Request) {
    forall i, j :: 0 <= i < j < |q.network| ==> q.network[i] != q.network[j]
  }

  predicate HasOwn(s: Stage) {
    s.Ended? && s.fate.Recorded? && s.fate.outcome.Returned?
  }

  /**
   * In every interleaving the entry of a network dependency is its worker's own result if that was
   * recorded before closing, a timeout if the worker was admitted but recorded nothing, and
   * "not evaluated" if it was never admitted.
   */
  lemma {:induction false} EntryTellsTheWorker(q: Request, clock: int, steps: seq<Step>, i: nat,
                                               price: Dependency, inline: Outcome)
    requires i < |q.network| && DistinctNetwork(q) && price !in q.network
    ensures var w := Run(q, Begin(q, clock), steps);
            EntryOf(w, price, inline, q.network[i]) ==
              if HasOwn(w.stages[i]) then Own(w.stages[i].fate.outcome.answer)
              else if Admitted(w.stages[i]) then TimedOut
              else NotEvaluated
  {
    var w := Run(q, Begin(q, clock), steps);
    RunKeepsInvariant(q, Begin(q, clock), steps);
    assert WorkerFits(q, w, i);
    var d := q.network[i];
    if d in w.results {
      var j :| 0 <= j < |w.stages| && q.network[j] == d && w.stages[j] == Ended(Recorded(Returned(w.results[d])));
      assert i == j;
    }
    if d in w.started {
      var j :| 0 <= j < |w.stages| && q.network[j] == d && Admitted(w.stages[j]);
      assert i == j;
    }
  }

  /** For every declared dependency, also one declared more than once, so that several workers serve it. */
  lemma {:induction false} EntryTellsSomeWorker(q: Request, clock: int, steps: seq<Step>, declared: seq<Dependency>,
                                                d: Dependency, price: Dependency, inline: Outcome)
    requires q.network == Network(declared, price) && d in declared
    ensures var w := Run(q, Begin(q, clock), steps);
            match EntryOf(w, price, inline, d)
            case Own(a) =>
              exists j :: 0 <= j < |w.stages| && q.network[j] == d && w.stages[j] == Ended(Recorded(Returned(a)))
            case TimedOut =>
              && (exists j :: 0 <= j < |w.stages| && q.network[j] == d && Admitted(w.stages[j]))
              && (forall j :: 0 <= j < |w.stages| && q.network[j] == d ==> !HasOwn(w.stages[j]))
            case NotEvaluated => forall j :: 0 <= j < |w.stages| && q.network[j] == d ==> !Admitted(w.stages[j])
            case Inline(a) => a == inline
    ensures EntryOf(Run(q, Begin(q, clock), steps), price, inline, d).Inline? <==> d == price
  {
    var w := Run(q, Begin(q, clock), steps);
    RunKeepsInvariant(q, Begin(q, clock), steps);
    forall j | 0 <= j < |w.stages| && q.network[j] == d
      ensures (Admitted(w.stages[j]) ==> d in w.started) && (HasOwn(w.stages[j]) ==> d in w.results)
    {
      assert WorkerFits(q, w, j);
    }
  }

  /** After closing no worker changes anything the answer is made of. */
  lemma {:induction false} LateWorkersChangeNothing(q: Request, w: World, steps: seq<Step>)
    requires |w.stages| == |q.network| && w.closed
    ensures var end := Run(q, w, steps);
            end.closed && end.results == w.results && end.started == w.started && end.errors == w.errors
    decreases |steps|
  {
    if steps != [] {
      LateWorkersChangeNothing(q, Apply(q, w, steps[0]), steps[1..]);
    }
  }

  /** Closing before the deadline throws nothing away: every worker was admitted and recorded its outcome. */
  lemma {:induction false} InTimeMeansComplete(q: Request, clock: int, steps: seq<Step>, i: nat)
    requires i < |q.network|
    requires var w := Run(q, Begin(q, clock), steps); w.closed && w.clock < q.deadline
    ensures var s := Run(q, Begin(q, clock), steps).stages[i]; s.Ended? && s.fate.Recorded?
  {
    var w := Run(q, Begin(q, clock), steps);
    RunKeepsInvariant(q, Begin(q, clock), steps);
    assert WorkerFits(q, w, i);
  }

  // When a worker was admitted, when it recorded, and that the caller gets away.

  lemma {:induction false} RunConcat(q: Request, w: World, a: seq<Step>, b: seq<Step>)
    requires |w.stages| == |q.network|
    ensures Run(q, w, a + b) == Run(q, Run(q, w, a), b)
    decreases |a|
  {
    if a == [] {
      assert a + b == b;
    } else {
      assert (a + b)[1..] == a[1..] + b;
      RunConcat(q, Apply(q, w, a[0]), a[1..], b);
    }
  }

  lemma {:induction false} LastStep(q: Request, w: World, steps: seq<Step>)
    requires |w.stages| == |q.network| && steps != []
    ensures Run(q, w, steps) == Apply(q, Run(q, w, steps[..|steps| - 1]), steps[|steps| - 1])
  {
    var n := |steps| - 1;
    assert steps == steps[..n] + [steps[n]];
    RunConcat(q, w, steps[..n], [steps[n]]);
  }

  /** Under the lock, the k-th step found the request open and the deadline not reached, or reached only now. */
  predicate StillOpen(q: Request, clock: int, steps: seq<Step>, k: nat, atDeadline: bool)
    requires k < |steps|
  {
    var w := Run(q, Begin(q, clock), steps[..k]);
    !w.closed && (w.clock < q.deadline || (atDeadline && w.clock == q.deadline))
  }

  /** The step that gave worker i its present stage. */
  ghost predicate CameFrom(q: Request, clock: int, steps: seq<Step>, i: nat, s: Stage) {
    match s
    case Waiting => true
    case Spawned =>
      exists k :: 0 <= k < |steps| && steps[k] == Launch && Run(q, Begin(q, clock), steps[..k]).clock < q.deadline
    case Running => exists k :: 0 <= k < |steps| && steps[k] == Admit(i) && StillOpen(q, clock, steps, k, false)
    case Finished(o) => exists k :: 0 <= k < |steps| && steps[k] == Finish(i, o)
    case Ended(Refused) => exists k :: 0 <= k < |steps| && steps[k] == Admit(i) && !StillOpen(q, clock, steps, k, false)
    case Ended(Recorded(_)) =>
      exists k :: 0 <= k < |steps| && steps[k] == Record(i) && StillOpen(q, clock, steps, k, true)
    case Ended(Late) => exists k :: 0 <= k < |steps| && steps[k] == Record(i) && !StillOpen(q, clock, steps, k, true)
  }

  lemma StepCameFrom(q: Request, w: World, step: Step, i: nat)
    requires |w.stages| == |q.network| && i < |w.stages| && Apply(q, w, step).stages[i] != w.stages[i]
    ensures match Apply(q, w, step).stages[i]
            case Waiting => false
            case Spawned => step == Launch && w.clock < q.deadline
            case Running => step == Admit(i) && !w.closed && w.clock < q.deadline
            case Finished(o) => step == Finish(i, o)
            case Ended(Refused) => step == Admit(i) && (w.closed || w.clock >= q.deadline)
            case Ended(Recorded(_)) => step == Record(i) && !w.closed && w.clock <= q.deadline
            case Ended(Late) => step == Record(i) && (w.closed || w.clock > q.deadline)
  {
  }

  lemma CameFromLonger(q: Request, clock: int, steps: seq<Step>, i: nat, s: Stage)
    requires steps != [] && CameFrom(q, clock, steps[..|steps| - 1], i, s)
    ensures CameFrom(q, clock, steps, i, s)
  {
    hide Run;
    var before := steps[..|steps| - 1];
    assert forall k :: 0 <= k < |before| ==> before[k] == steps[k] && before[..k] == steps[..k];
    assert forall k, b :: 0 <= k < |before| ==> StillOpen(q, clock, before, k, b) == StillOpen(q, clock, steps, k, b);
  }

  /**
   * In every interleaving: a thread was started before the deadline, admitted before it while the request was
   * open, refused otherwise, and its outcome was recorded up to the deadline while open, discarded otherwise.
   */
  lemma {:induction false} StageTellsTheTime(q: Request, clock: int, steps: seq<Step>, i: nat)
    requires i < |q.network|
    ensures CameFrom(q, clock, steps, i, Run(q, Begin(q, clock), steps).stages[i])
    decreases |steps|
  {
    if steps != [] {
      var n := |steps| - 1;
      var before := Run(q, Begin(q, clock), steps[..n]);
      LastStep(q, Begin(q, clock), steps);
      StageTellsTheTime(q, clock, steps[..n], i);
      if Apply(q, before, steps[n]).stages[i] == before.stages[i] {
        CameFromLonger(q, clock, steps, i, before.stages[i]);
      } else {
        StepCameFrom(q, before, steps[n], i);
        hide Apply, Run;
        assert StillOpen(q, clock, steps, n, false) <==> !before.closed && before.clock < q.deadline;
        assert StillOpen(q, clock, steps, n, true) <==> !before.closed && before.clock <= q.deadline;
      }
    }
  }

  /** The failures recorded while that counts, in the order of recording. */
  function Failures(q: Request, clock: int, steps: seq<Step>): seq<Failure> {
    if steps == [] then [] else
    var n := |steps| - 1;
    var w := Run(q, Begin(q, clock), steps[..n]);
    Failures(q, clock, steps[..n]) +
    match steps[n]
    case Record(i) =>
      if i < |w.stages| && w.stages[i].Finished? && w.stages[i].outcome.Raised? && StillOpen(q, clock, steps, n, true)
      then [w.stages[i].outcome.failure] else []
    case _ => []
  }

  /** The failures that the answer is judged by are those, so the one that is raised was recorded first. */
  lemma {:induction false} ErrorsAreFailures(q: Request, clock: int, steps: seq<Step>)
    ensures Run(q, Begin(q, clock), steps).errors == Failures(q, clock, steps)
    decreases |steps|
  {
    if steps != [] {
      var n := |steps| - 1;
      ErrorsAreFailures(q, clock, steps[..n]);
      LastStep(q, Begin(q, clock), steps);
    }
  }

  /** Whatever the workers do, at the deadline the caller stops starting threads and closes. */
  lemma {:induction false} CallerNeverHangs(q: Request, clock: int, steps: seq<Step>)
    ensures var w := Run(q, Begin(q, clock), steps);
            var rest := [Tick(if w.clock < q.deadline then q.deadline - w.clock else 0), Launch, Close];
            Run(q, w, rest).closed && Run(q, w, rest).results == w.results
  {
    var w := Run(q, Begin(q, clock), steps);
    RunKeepsInvariant(q, Begin(q, clock), steps);
    var tick := Tick(if w.clock < q.deadline then q.deadline - w.clock else 0);
    hide Run;
    ThreeSteps(q, w, tick, Launch, Close);
  }

  lemma {:induction false} ThreeSteps(q: Request, w: World, x: Step, y: Step, z: Step)
    requires |w.stages| == |q.network|
    ensures Run(q, w, [x, y, z]) == Apply(q, Apply(q, Apply(q, w, x), y), z)
  {
    assert [x, y, z][1..] == [y, z] && [y, z][1..] == [z] && [z][1..] == [];
    var a := Apply(q, w, x);
    var b := Apply(q, a, y);
    assert Run(q, b, [z]) == Apply(q, b, z);
    assert Run(q, a, [y, z]) == Run(q, b, [z]);
  }

  // The run in which nothing is slow.

  function Launches(n: nat): seq<Step> {
    if n == 0 then [] else Launches(n - 1) + [Launch]
  }

  function Served(outcomes: seq<Outcome>, n: nat): seq<Step>
    requires n <= |outcomes|
  {
    if n == 0 then [] else Served(outcomes, n - 1) + [Admit(n - 1), Finish(n - 1, outcomes[n - 1]), Record(n - 1)]
  }

  function Punctual(outcomes: seq<Outcome>): seq<Step> {
    Launches(|outcomes|) + [Launch] + Served(outcomes, |outcomes|) + [Close]
  }

  lemma {:induction false} AllLaunch(q: Request, clock: int, n: nat)
    requires clock < q.deadline && n <= |q.network|
    ensures var w := Run(q, Begin(q, clock), Launches(n));
            && w.clock == clock && w.launched == n && w.launching && !w.closed && w.errors == []
            && forall i :: 0 <= i < |w.stages| ==> w.stages[i] == if i < n then Spawned else Waiting
  {
    if n > 0 {
      AllLaunch(q, clock, n - 1);
      RunConcat(q, Begin(q, clock), Launches(n - 1), [Launch]);
      assert [Launch][1..] == [];
    }
  }

  lemma {:induction false} ServeOne(q: Request, w: World, i: nat, o: Outcome)
    requires |w.stages| == |q.network| && i < |w.stages| && w.stages[i] == Spawned
    requires !w.closed && w.clock < q.deadline
    ensures var n := Run(q, w, [Admit(i), Finish(i, o), Record(i)]);
            && n.stages == w.stages[i := Ended(Recorded(o))]
            && n.clock == w.clock && n.launched == w.launched && n.launching == w.launching && !n.closed
  {
    ThreeSteps(q, w, Admit(i), Finish(i, o), Record(i));
  }

  lemma {:induction false} AllServed(q: Request, w: World, outcomes: seq<Outcome>, n: nat)
    requires |w.stages| == |q.network| == |outcomes| && n <= |outcomes|
    requires !w.closed && w.clock < q.deadline && forall i :: 0 <= i < |w.stages| ==> w.stages[i] == Spawned
    ensures var e := Run(q, w, Served(outcomes, n));
            && e.clock == w.clock && e.launched == w.launched && e.launching == w.launching && !e.closed
            && forall i :: 0 <= i < |e.stages| ==>
                 e.stages[i] == if i < n then Ended(Recorded(outcomes[i])) else Spawned
  {
    if n > 0 {
      AllServed(q, w, outcomes, n - 1);
      var before := Run(q, w, Served(outcomes, n - 1));
      RunConcat(q, w, Served(outcomes, n - 1), [Admit(n - 1), Finish(n - 1, outcomes[n - 1]), Record(n - 1)]);
      hide Run;
      ServeOne(q, before, n - 1, outcomes[n - 1]);
    }
  }

  /** While time stands still before the deadline every worker is served, and the caller closes with all outcomes. */
  lemma {:induction false} PunctualRunCompletes(q: Request, clock: int, outcomes: seq<Outcome>)
    requires clock < q.deadline && |outcomes| == |q.network|
    ensures var w := Run(q, Begin(q, clock), Punctual(outcomes));
            && w.closed && w.clock == clock
            && forall i :: 0 <= i < |outcomes| ==> w.stages[i] == Ended(Recorded(outcomes[i]))
  {
    var n := |outcomes|;
    var begin := Begin(q, clock);
    var launched := Run(q, begin, Launches(n));
    AllLaunch(q, clock, n);
    var ready := Apply(q, launched, Launch);
    RunConcat(q, begin, Launches(n), [Launch]);
    assert [Launch][1..] == [] && [Close][1..] == [];
    assert Run(q, begin, Launches(n) + [Launch]) == ready;
    AllServed(q, ready, outcomes, n);
    RunConcat(q, begin, Launches(n) + [Launch], Served(outcomes, n));
    RunConcat(q, begin, Launches(n) + [Launch] + Served(outcomes, n), [Close]);
  }
}
