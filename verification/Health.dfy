// The concurrent health check: one worker per server, a counting semaphore, and a
// context that may be cancelled at any moment. Workers are interleaved freely.
module HealthCheck {
  import opened Sequences

  const DEFAULT_MAX_CONCURRENT := 20

  function Limit(maxConcurrent: int): (limit: nat)
    ensures limit > 0 && (maxConcurrent > 0 ==> limit == maxConcurrent) && (maxConcurrent <= 0 ==> limit == 20)
  {
    if maxConcurrent <= 0 then DEFAULT_MAX_CONCURRENT else maxConcurrent
  }

  /** The servers whose mark is set, in input order. */
  function Survivors<T>(servers: seq<T>, marks: seq<bool>): seq<T>
    requires |marks| == |servers|
  {
    if servers == [] then []
    else
      var n := |servers| - 1;
      Survivors(servers[..n], marks[..n]) + if marks[n] then [servers[n]] else []
  }

  /** The collecting loop after all workers are done. */
  method Collect<T>(servers: seq<T>, marks: seq<bool>) returns (alive: seq<T>)
    requires |marks| == |servers|
    ensures alive == Survivors(servers, marks)
  {
    alive := [];
    var i := 0;
    while i < |servers|
      invariant i <= |servers|
      invariant alive == Survivors(servers[..i], marks[..i])
    {
      assert servers[..i + 1][..i] == servers[..i] && marks[..i + 1][..i] == marks[..i];
      if marks[i] {
        alive := alive + [servers[i]];
      }
      i := i + 1;
    }
    assert servers[..i] == servers && marks[..i] == marks;
  }

  /** Marking fewer servers leaves a subsequence. */
  lemma {:induction false} FewerSurvivors<T>(servers: seq<T>, marks: seq<bool>, more: seq<bool>)
    requires |marks| == |servers| == |more|
    requires forall i :: 0 <= i < |marks| && marks[i] ==> more[i]
    ensures IsSubsequence(Survivors(servers, marks), Survivors(servers, more))
  {
    if servers != [] {
      var n := |servers| - 1;
      FewerSurvivors(servers[..n], marks[..n], more[..n]);
      var sub, full := Survivors(servers[..n], marks[..n]), Survivors(servers[..n], more[..n]);
      assert sub + [] == sub && full + [] == full;
      if more[n] {
        SubsequenceAppend(sub, full, servers[n]);
      }
    }
  }

  lemma {:induction false} AllSurvive<T>(servers: seq<T>, marks: seq<bool>)
    requires |marks| == |servers| && forall i :: 0 <= i < |marks| ==> marks[i]
    ensures Survivors(servers, marks) == servers
  {
    if servers != [] {
      AllSurvive(servers[..|servers| - 1], marks[..|servers| - 1]);
    }
  }

  // ---------------------------------------------------------- the workers

  datatype Phase = Unborn | Skipped | Waiting | Holding | Dialing | Dialed | Ended

  /** `launched` workers have been considered by the launching loop, `sem` slots are
      taken, and `results` is the shared slice. */
  datatype Check = Check(phases: seq<Phase>, launched: nat, sem: int, results: seq<bool>, cancelled: bool)

  datatype Step = Cancel | Launch | Acquire(i: nat) | GiveUp(i: nat) | Bail(i: nat)
    | Dial(i: nat) | Answer(i: nat) | Release(i: nat)

  ghost function Start(n: nat): Check {
    Check(seq(n, _ => Unborn), 0, 0, seq(n, _ => false), false)
  }

  ghost predicate At(c: Check, i: nat, phase: Phase) {
    i < |c.phases| && c.phases[i] == phase
  }

  ghost predicate Enabled(c: Check, limit: nat, up: seq<bool>, step: Step) {
    match step
    case Cancel => !c.cancelled
    case Launch => c.launched < |c.phases|
    case Acquire(i) => At(c, i, Waiting) && c.sem < limit
    case GiveUp(i) => At(c, i, Waiting) && c.cancelled
    case Bail(i) => At(c, i, Holding) && c.cancelled
    case Dial(i) => At(c, i, Holding) && !c.cancelled
    case Answer(i) => At(c, i, Dialing) && i < |c.results| && i < |up|
    case Release(i) => At(c, i, Dialed)
  }

  /** `up[i]` says whether server `i` answers the dial. */
  ghost function Apply(c: Check, limit: nat, up: seq<bool>, step: Step): Check
    requires Enabled(c, limit, up, step)
  {
    match step
    case Cancel => c.(cancelled := true)
    case Launch => c.(phases := c.phases[c.launched := if c.cancelled then Skipped else Waiting],
                      launched := c.launched + 1)
    case Acquire(i) => c.(phases := c.phases[i := Holding], sem := c.sem + 1)
    case GiveUp(i) => c.(phases := c.phases[i := Ended])
    case Bail(i) => c.(phases := c.phases[i := Ended], sem := c.sem - 1)
    case Dial(i) => c.(phases := c.phases[i := Dialing])
    case Answer(i) => c.(phases := c.phases[i := Dialed], results := c.results[i := up[i]])
    case Release(i) => c.(phases := c.phases[i := Ended], sem := c.sem - 1)
  }

  ghost predicate HoldsSlot(p: Phase) {
    p.Holding? || p.Dialing? || p.Dialed?
  }

  ghost function CountSlots(phases: seq<Phase>): nat {
    if phases == [] then 0
    else CountSlots(phases[..|phases| - 1]) + if HoldsSlot(phases[|phases| - 1]) then 1 else 0
  }

  ghost function CountDials(phases: seq<Phase>): nat {
    if phases == [] then 0
    else CountDials(phases[..|phases| - 1]) + if phases[|phases| - 1].Dialing? then 1 else 0
  }

  lemma {:induction false} DialsHoldSlots(phases: seq<Phase>)
    ensures CountDials(phases) <= CountSlots(phases)
  {
    if phases != [] {
      DialsHoldSlots(phases[..|phases| - 1]);
    }
  }

  lemma {:induction false} CountUpdate(phases: seq<Phase>, i: nat, p: Phase)
    requires i < |phases|
    ensures CountSlots(phases[i := p]) + (if HoldsSlot(phases[i]) then 1 else 0)
            == CountSlots(phases) + (if HoldsSlot(p) then 1 else 0)
  {
    var n := |phases| - 1;
    if i < n {
      CountUpdate(phases[..n], i, p);
      assert phases[i := p][..n] == phases[..n][i := p];
    } else {
      assert phases[i := p][..n] == phases[..n];
    }
  }

  /** Slots taken are slots counted, a mark is only ever set for a server that
      answers, and without cancellation nobody leaves without an answer. */
  ghost predicate Shape(c: Check, limit: nat, up: seq<bool>) {
    && |c.phases| == |c.results| == |up|
    && c.launched <= |c.phases|
    && c.sem == CountSlots(c.phases) <= limit
    && (forall i :: 0 <= i < |c.phases| ==> (c.phases[i].Unborn? <==> c.launched <= i))
    && (forall i :: 0 <= i < |c.phases| && c.results[i] ==> up[i])
    && (forall i :: 0 <= i < |c.phases| && c.phases[i].Dialed? ==> c.results[i] == up[i])
    && (!c.cancelled ==> forall i :: 0 <= i < |c.phases| ==>
          !c.phases[i].Skipped? && (c.phases[i].Ended? ==> c.results[i] == up[i]))
  }

  lemma {:induction false} StartShape(n: nat, limit: nat, up: seq<bool>)
    requires |up| == n
    ensures Shape(Start(n), limit, up)
  {
    NoSlots(Start(n).phases);
  }

  lemma {:induction false} NoSlots(phases: seq<Phase>)
    requires forall i :: 0 <= i < |phases| ==> phases[i].Unborn?
    ensures CountSlots(phases) == 0
  {
    if phases != [] {
      NoSlots(phases[..|phases| - 1]);
    }
  }

  ghost function WorkerOf(c: Check, step: Step): nat {
    match step
    case Cancel => 0
    case Launch => c.launched
    case Acquire(i) => i
    case GiveUp(i) => i
    case Bail(i) => i
    case Dial(i) => i
    case Answer(i) => i
    case Release(i) => i
  }

  lemma StepShape(c: Check, limit: nat, up: seq<bool>, step: Step)
    requires Shape(c, limit, up) && Enabled(c, limit, up, step)
    ensures Shape(Apply(c, limit, up, step), limit, up)
  {
    if !step.Cancel? {
      var i := WorkerOf(c, step);
      CountUpdate(c.phases, i, Apply(c, limit, up, step).phases[i]);
      hide CountSlots;
    }
  }

  // ------------------------------------------------------------ whole runs

  ghost predicate Runs(c: Check, limit: nat, up: seq<bool>, steps: seq<Step>)
    decreases |steps|
  {
    steps == [] || (Enabled(c, limit, up, steps[0]) && Runs(Apply(c, limit, up, steps[0]), limit, up, steps[1..]))
  }

  ghost function Final(c: Check, limit: nat, up: seq<bool>, steps: seq<Step>): Check
    requires Runs(c, limit, up, steps)
    decreases |steps|
  {
    if steps == [] then c
    else Final(Apply(c, limit, up, steps[0]), limit, up, steps[1..])
  }

  /** The wait group is down to zero: every worker was skipped or has ended. */
  ghost predicate AllDone(c: Check) {
    forall i :: 0 <= i < |c.phases| ==> c.phases[i].Skipped? || c.phases[i].Ended?
  }

  lemma {:induction false} RunShape(c: Check, limit: nat, up: seq<bool>, steps: seq<Step>)
    requires Shape(c, limit, up) && Runs(c, limit, up, steps)
    ensures Shape(Final(c, limit, up, steps), limit, up)
    ensures Cancel !in steps ==> Final(c, limit, up, steps).cancelled == c.cancelled
    decreases |steps|
  {
    if steps != [] {
      StepShape(c, limit, up, steps[0]);
      RunShape(Apply(c, limit, up, steps[0]), limit, up, steps[1..]);
      hide Shape, Runs;
      assert steps == [steps[0]] + steps[1..];
    }
  }

  /** However the workers interleave, at most `limit` dials are open at once, the
      survivors are reachable servers in input order, and without cancellation they
      are exactly the reachable ones. */
  lemma ScheduleIndependent<T>(servers: seq<T>, maxConcurrent: int, up: seq<bool>, steps: seq<Step>)
    requires |up| == |servers|
    requires Runs(Start(|servers|), Limit(maxConcurrent), up, steps)
    ensures var c := Final(Start(|servers|), Limit(maxConcurrent), up, steps);
            && CountDials(c.phases) <= Limit(maxConcurrent)
            && |c.results| == |servers|
            && IsSubsequence(Survivors(servers, c.results), Survivors(servers, up))
            && (AllDone(c) && Cancel !in steps ==> Survivors(servers, c.results) == Survivors(servers, up))
  {
    var c := Final(Start(|servers|), Limit(maxConcurrent), up, steps);
    StartShape(|servers|, Limit(maxConcurrent), up);
    RunShape(Start(|servers|), Limit(maxConcurrent), up, steps);
    DialsHoldSlots(c.phases);
    FewerSurvivors(servers, c.results, up);
    if AllDone(c) && Cancel !in steps {
      assert c.results == up;
    }
  }

  /** Cancelled or not, a check returns nothing if and only if no dial that came back
      reached its server. */
  lemma NilExactly<T>(servers: seq<T>, maxConcurrent: int, up: seq<bool>, steps: seq<Step>)
    requires |up| == |servers|
    requires Runs(Start(|servers|), Limit(maxConcurrent), up, steps)
    ensures var c := Final(Start(|servers|), Limit(maxConcurrent), up, steps);
            && |c.results| == |servers|
            && (Survivors(servers, c.results) == []
                <==> forall i: nat :: i < |servers| && Answer(i) in steps ==> !up[i])
  {
    ScheduleIndependent(servers, maxConcurrent, up, steps);
    var results := Final(Start(|servers|), Limit(maxConcurrent), up, steps).results;
    NobodySurvives(servers, results);
    forall i: nat | i < |servers| ensures results[i] <==> Answer(i) in steps && up[i] {
      ResultsExactly(Start(|servers|), Limit(maxConcurrent), up, steps, i);
    }
  }

  lemma {:induction false} NobodySurvives<T>(servers: seq<T>, marks: seq<bool>)
    requires |marks| == |servers|
    ensures Survivors(servers, marks) == [] <==> forall i :: 0 <= i < |marks| ==> !marks[i]
  {
    if servers != [] {
      NobodySurvives(servers[..|servers| - 1], marks[..|servers| - 1]);
    }
  }

  /** A server is in the result exactly if its dial came back and it was reachable. */
  lemma {:induction false} ResultsExactly(c: Check, limit: nat, up: seq<bool>, steps: seq<Step>, i: nat)
    requires Runs(c, limit, up, steps) && i < |c.results| && i < |up|
    ensures var results := Final(c, limit, up, steps).results;
            i < |results| && results[i] == if Answer(i) in steps then up[i] else c.results[i]
    decreases |steps|
  {
    if steps != [] {
      ResultsExactly(Apply(c, limit, up, steps[0]), limit, up, steps[1..], i);
      assert steps == [steps[0]] + steps[1..];
    }
  }

  /** A cancelled check need not come back empty: here the only server answers just
      before the cancellation. */
  lemma CancelledYetNotEmpty()
    ensures var steps := [Launch, Acquire(0), Dial(0), Answer(0), Release(0), Cancel];
            && Runs(Start(1), 1, [true], steps)
            && AllDone(Final(Start(1), 1, [true], steps))
            && Final(Start(1), 1, [true], steps).cancelled
            && Final(Start(1), 1, [true], steps).results == [true]
  {
  }

  // ----------------------------------------------------------- termination

  ghost function Left(p: Phase): nat {
    match p
    case Unborn => 5
    case Waiting => 4
    case Holding => 3
    case Dialing => 2
    case Dialed => 1
    case _ => 0
  }

  ghost function WorkLeft(phases: seq<Phase>): nat {
    if phases == [] then 0
    else WorkLeft(phases[..|phases| - 1]) + Left(phases[|phases| - 1])
  }

  ghost function Budget(c: Check): nat {
    WorkLeft(c.phases) + if c.cancelled then 0 else 1
  }

  lemma {:induction false} WorkUpdate(phases: seq<Phase>, i: nat, p: Phase)
    requires i < |phases|
    ensures WorkLeft(phases[i := p]) + Left(phases[i]) == WorkLeft(phases) + Left(p)
  {
    var n := |phases| - 1;
    if i < n {
      WorkUpdate(phases[..n], i, p);
      assert phases[i := p][..n] == phases[..n][i := p];
    } else {
      assert phases[i := p][..n] == phases[..n];
    }
  }

  lemma StepSpends(c: Check, limit: nat, up: seq<bool>, step: Step)
    requires Shape(c, limit, up) && Enabled(c, limit, up, step)
    ensures Budget(Apply(c, limit, up, step)) < Budget(c)
  {
    if !step.Cancel? {
      var i := WorkerOf(c, step);
      WorkUpdate(c.phases, i, Apply(c, limit, up, step).phases[i]);
      hide WorkLeft;
    }
  }

  /** No run is longer than its budget, so the check cannot run forever. */
  lemma {:induction false} RunsAreBounded(c: Check, limit: nat, up: seq<bool>, steps: seq<Step>)
    requires Shape(c, limit, up) && Runs(c, limit, up, steps)
    ensures |steps| + Budget(Final(c, limit, up, steps)) <= Budget(c)
    decreases |steps|
  {
    if steps != [] {
      StepShape(c, limit, up, steps[0]);
      StepSpends(c, limit, up, steps[0]);
      hide Budget, Shape;
      RunsAreBounded(Apply(c, limit, up, steps[0]), limit, up, steps[1..]);
    }
  }

  /** And it never deadlocks: until the wait group is down, somebody can move. */
  lemma NeverStuck(c: Check, limit: nat, up: seq<bool>) returns (step: Step)
    requires limit > 0 && Shape(c, limit, up) && !AllDone(c)
    ensures Enabled(c, limit, up, step) && !step.Cancel?
  {
    var i :| 0 <= i < |c.phases| && !(c.phases[i].Skipped? || c.phases[i].Ended?);
    match c.phases[i] {
      case Unborn => step := Launch;
      case Holding => step := if c.cancelled then Bail(i) else Dial(i);
      case Dialing => step := Answer(i);
      case Dialed => step := Release(i);
      case Waiting =>
        if c.sem < limit {
          step := Acquire(i);
        } else {
          var j := SomeSlot(c.phases);
          step := match c.phases[j]
            case Holding => if c.cancelled then Bail(j) else Dial(j)
            case Dialing => Answer(j)
            case _ => Release(j);
        }
      case _ =>
    }
  }

  lemma {:induction false} SomeSlot(phases: seq<Phase>) returns (j: nat)
    requires CountSlots(phases) > 0
    ensures j < |phases| && HoldsSlot(phases[j])
  {
    j := |phases| - 1;
    if !HoldsSlot(phases[j]) {
      j := SomeSlot(phases[..j]);
    }
  }
}
