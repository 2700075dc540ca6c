// The semaphore around index calls, with the backoff of the retry loop, under any
// interleaving (backend/app/services/typesense_service.py).
module IndexGate {

  // A task waits for a permit, runs its call holding it, leaves the guarded block with
  // the call's outcome, and then returns, raises, or sleeps before its next attempt.
  datatype Phase = Waiting | InFlight | Leaving(ok: bool) | Sleeping | Returned | Raised

  // Attempts count from 1. A call that is not retried has one attempt.
  datatype Task = Task(phase: Phase, holds: bool, attempt: nat, maxAttempts: nat) {
    // A permit is held from the start of a call until the block is left, and at no other time.
    ghost predicate Valid() {
      && 1 <= attempt <= maxAttempts
      && (holds <==> phase.InFlight? || phase.Leaving?)
      && (phase.Sleeping? ==> attempt < maxAttempts)
      && (phase.Raised? ==> attempt == maxAttempts)
    }

    predicate Finished() {
      phase.Returned? || phase.Raised?
    }
  }

  // The permits left, and the tasks.
  datatype Gate = Gate(permits: nat, tasks: seq<Task>)

  datatype Move =
    | Acquire(task: nat)
    | EndCall(task: nat, ok: bool)
    | Release(task: nat)
    | Wake(task: nat)

  predicate Enabled(g: Gate, m: Move) {
    m.task < |g.tasks| &&
    var phase := g.tasks[m.task].phase;
    match m
    case Acquire(_) => phase.Waiting? && g.permits > 0
    case EndCall(_, _) => phase.InFlight?
    case Release(_) => phase.Leaving?
    case Wake(_) => phase.Sleeping?
  }

  // Where a task goes when it has left the block.
  function AfterCall(t: Task): Phase
    requires t.phase.Leaving?
  {
    if t.phase.ok then Returned else if t.attempt == t.maxAttempts then Raised else Sleeping
  }

  function Next(g: Gate, m: Move): Gate
    requires Enabled(g, m)
  {
    var i, t := m.task, g.tasks[m.task];
    match m
    case Acquire(_) => Gate(g.permits - 1, g.tasks[i := t.(phase := InFlight, holds := true)])
    case EndCall(_, ok) => g.(tasks := g.tasks[i := t.(phase := Leaving(ok))])
    case Release(_) => Gate(g.permits + 1, g.tasks[i := t.(phase := AfterCall(t), holds := false)])
    case Wake(_) => g.(tasks := g.tasks[i := t.(phase := Waiting, attempt := t.attempt + 1)])
  }

  ghost function Holders(tasks: seq<Task>): nat {
    if tasks == [] then 0 else (if tasks[0].holds then 1 else 0) + Holders(tasks[1..])
  }

  ghost function Calls(tasks: seq<Task>): nat {
    if tasks == [] then 0 else (if tasks[0].phase.InFlight? then 1 else 0) + Calls(tasks[1..])
  }

  // How many moves a task can still make.
  ghost function Left(t: Task): nat {
    if t.attempt > t.maxAttempts then 0
    else
      var later := 4 * (t.maxAttempts - t.attempt);
      match t.phase
      case Waiting => later + 3
      case InFlight => later + 2
      case Leaving(_) => later + 1
      case Sleeping => later
      case Returned => 0
      case Raised => 0
  }

  ghost function MovesLeft(tasks: seq<Task>): nat {
    if tasks == [] then 0 else Left(tasks[0]) + MovesLeft(tasks[1..])
  }

  ghost predicate AllValid(tasks: seq<Task>) {
    forall i :: 0 <= i < |tasks| ==> tasks[i].Valid()
  }

  // Every permit is free or held by a task.
  ghost predicate Inv(g: Gate, capacity: nat) {
    g.permits + Holders(g.tasks) == capacity && AllValid(g.tasks)
  }

  lemma {:induction false} CountUpdate(tasks: seq<Task>, i: nat, t: Task)
    requires i < |tasks|
    ensures Holders(tasks[i := t]) == Holders(tasks) - (if tasks[i].holds then 1 else 0) + (if t.holds then 1 else 0)
    ensures MovesLeft(tasks[i := t]) == MovesLeft(tasks) - Left(tasks[i]) + Left(t)
  {
    if i > 0 {
      assert tasks[i := t][1..] == tasks[1..][i - 1 := t];
      CountUpdate(tasks[1..], i - 1, t);
    } else {
      assert tasks[i := t][1..] == tasks[1..];
    }
  }

  // Each move keeps the invariant and uses up at least one of the moves left.
  lemma MoveKeepsInv(g: Gate, m: Move, capacity: nat)
    requires Inv(g, capacity) && Enabled(g, m)
    ensures Inv(Next(g, m), capacity)
    ensures MovesLeft(Next(g, m).tasks) < MovesLeft(g.tasks)
  {
    CountUpdate(g.tasks, m.task, Next(g, m).tasks[m.task]);
    assert g.tasks[m.task].Valid();
  }

  ghost predicate Runs(g: Gate, ms: seq<Move>, g': Gate)
    decreases |ms|
  {
    if ms == [] then g == g' else Enabled(g, ms[0]) && Runs(Next(g, ms[0]), ms[1..], g')
  }

  // Tasks that are about to make their first attempt.
  function Started(capacity: nat, attempts: seq<nat>): Gate {
    Gate(capacity, seq(|attempts|, i requires 0 <= i < |attempts| => Task(Waiting, false, 1, attempts[i])))
  }

  lemma {:induction false} RunKeepsInv(g: Gate, ms: seq<Move>, g': Gate, capacity: nat)
    requires Inv(g, capacity) && Runs(g, ms, g')
    ensures Inv(g', capacity)
    ensures |ms| + MovesLeft(g'.tasks) <= MovesLeft(g.tasks)
    ensures |g'.tasks| == |g.tasks| && forall i :: 0 <= i < |g.tasks| ==> g'.tasks[i].maxAttempts == g.tasks[i].maxAttempts
    decreases |ms|
  {
    if ms != [] {
      MoveKeepsInv(g, ms[0], capacity);
      RunKeepsInv(Next(g, ms[0]), ms[1..], g', capacity);
    }
  }

  lemma {:induction false} NoHolders(tasks: seq<Task>)
    ensures Holders(tasks) == 0 <==> forall i :: 0 <= i < |tasks| ==> !tasks[i].holds
  {
    if tasks != [] {
      NoHolders(tasks[1..]);
      assert tasks == [tasks[0]] + tasks[1..];
    }
  }

  lemma {:induction false} CallsHold(tasks: seq<Task>)
    requires AllValid(tasks)
    ensures Calls(tasks) <= Holders(tasks)
  {
    if tasks != [] {
      assert tasks[0].Valid();
      CallsHold(tasks[1..]);
    }
  }

  lemma StartedInv(capacity: nat, attempts: seq<nat>)
    requires forall i :: 0 <= i < |attempts| ==> attempts[i] >= 1
    ensures Inv(Started(capacity, attempts), capacity)
  {
    NoHolders(Started(capacity, attempts).tasks);
  }

  // In every run from any number of calls: at most `capacity` are in flight, permits are
  // conserved, a sleeping, returned or raised task holds none, no task makes more attempts
  // than it may, and none raises before it has made them all.
  lemma GateHolds(capacity: nat, attempts: seq<nat>, ms: seq<Move>, g: Gate)
    requires (forall i :: 0 <= i < |attempts| ==> attempts[i] >= 1) && Runs(Started(capacity, attempts), ms, g)
    ensures Calls(g.tasks) <= Holders(g.tasks) <= capacity && g.permits + Holders(g.tasks) == capacity
    ensures |g.tasks| == |attempts|
    ensures forall i :: 0 <= i < |attempts| ==>
              && 1 <= g.tasks[i].attempt <= attempts[i]
              && (g.tasks[i].phase.Sleeping? || g.tasks[i].Finished() ==> !g.tasks[i].holds)
              && (g.tasks[i].phase.Raised? ==> g.tasks[i].attempt == attempts[i])
    ensures (forall i :: 0 <= i < |g.tasks| ==> g.tasks[i].Finished()) ==> g.permits == capacity
  {
    StartedInv(capacity, attempts);
    RunKeepsInv(Started(capacity, attempts), ms, g, capacity);
    assert forall i :: 0 <= i < |attempts| ==> g.tasks[i].Valid();
    CallsHold(g.tasks);
    NoHolders(g.tasks);
  }

  // How the calls of task i ended, in order.
  ghost function Outcomes(ms: seq<Move>, i: nat): seq<bool> {
    if ms == [] then []
    else (if ms[0].EndCall? && ms[0].task == i then [ms[0].ok] else []) + Outcomes(ms[1..], i)
  }

  // Every call ended badly.
  ghost predicate AllFailed(os: seq<bool>) {
    forall n :: 0 <= n < |os| ==> !os[n]
  }

  // Only the last call, if any, ended well.
  ghost predicate LastSucceeded(os: seq<bool>) {
    os != [] && os[|os| - 1] && AllFailed(os[..|os| - 1])
  }

  // What the calls made so far, ending in `os`, say of the task.
  ghost predicate Explains(t: Task, os: seq<bool>) {
    match t.phase
    case Waiting => |os| == t.attempt - 1 && AllFailed(os)
    case InFlight => |os| == t.attempt - 1 && AllFailed(os)
    case Leaving(ok) => |os| == t.attempt && if ok then LastSucceeded(os) else AllFailed(os)
    case Sleeping => |os| == t.attempt && AllFailed(os)
    case Returned => |os| == t.attempt && LastSucceeded(os)
    case Raised => |os| == t.attempt && AllFailed(os)
  }

  lemma MoveExplained(g: Gate, m: Move, i: nat, os: seq<bool>)
    requires Enabled(g, m) && i < |g.tasks| && Explains(g.tasks[i], os)
    ensures |Next(g, m).tasks| == |g.tasks|
    ensures Explains(Next(g, m).tasks[i], os + if m.EndCall? && m.task == i then [m.ok] else [])
  {
    if m.EndCall? && m.task == i {
      assert (os + [m.ok])[..|os|] == os;
    } else {
      assert os + [] == os;
    }
  }

  lemma {:induction false} RunExplained(g: Gate, ms: seq<Move>, g': Gate, i: nat, os: seq<bool>)
    requires Runs(g, ms, g') && i < |g.tasks| && Explains(g.tasks[i], os)
    ensures |g'.tasks| == |g.tasks| && Explains(g'.tasks[i], os + Outcomes(ms, i))
    decreases |ms|
  {
    hide Explains, Enabled, Next;
    if ms == [] {
      assert os + [] == os;
    } else {
      var first := if ms[0].EndCall? && ms[0].task == i then [ms[0].ok] else [];
      MoveExplained(g, ms[0], i, os);
      RunExplained(Next(g, ms[0]), ms[1..], g', i, os + first);
      assert os + (first + Outcomes(ms[1..], i)) == (os + first) + Outcomes(ms[1..], i);
    }
  }

  // In every run a call is made again exactly as long as it fails and attempts are left: a
  // task that returned made one good call, its last; one that raised made all its attempts
  // and each failed; one that has not finished has only failures behind it, but for a call
  // that just ended well.
  lemma OutcomesDecide(capacity: nat, attempts: seq<nat>, ms: seq<Move>, g: Gate, i: nat)
    requires (forall j :: 0 <= j < |attempts| ==> attempts[j] >= 1) && Runs(Started(capacity, attempts), ms, g)
    requires i < |attempts|
    ensures |g.tasks| == |attempts|
    ensures var t, os := g.tasks[i], Outcomes(ms, i);
            && |os| <= attempts[i]
            && (t.phase.Returned? ==> LastSucceeded(os))
            && (t.phase.Raised? ==> |os| == attempts[i] && AllFailed(os))
            && (!t.Finished() ==> AllFailed(os) || (t.phase.Leaving? && LastSucceeded(os)))
            && (t.phase.Sleeping? ==> 1 <= |os| < attempts[i])
  {
    GateHolds(capacity, attempts, ms, g);
    RunExplained(Started(capacity, attempts), ms, g, i, []);
    assert [] + Outcomes(ms, i) == Outcomes(ms, i);
    StartedInv(capacity, attempts);
    RunKeepsInv(Started(capacity, attempts), ms, g, capacity);
    assert g.tasks[i].Valid();
  }

  function Sum(ns: seq<nat>): nat {
    if ns == [] then 0 else ns[0] + Sum(ns[1..])
  }

  lemma {:induction false} StartBound(capacity: nat, attempts: seq<nat>)
    requires forall i :: 0 <= i < |attempts| ==> attempts[i] >= 1
    ensures MovesLeft(Started(capacity, attempts).tasks) <= 4 * Sum(attempts)
  {
    if attempts != [] {
      StartBound(capacity, attempts[1..]);
      assert Started(capacity, attempts).tasks[1..] == Started(capacity, attempts[1..]).tasks;
    }
  }

  // No run goes on forever: its length is bounded by the attempts granted in all.
  lemma GateTerminates(capacity: nat, attempts: seq<nat>, ms: seq<Move>, g: Gate)
    requires (forall i :: 0 <= i < |attempts| ==> attempts[i] >= 1) && Runs(Started(capacity, attempts), ms, g)
    ensures |ms| <= 4 * Sum(attempts)
  {
    StartedInv(capacity, attempts);
    RunKeepsInv(Started(capacity, attempts), ms, g, capacity);
    StartBound(capacity, attempts);
  }

  // No run gets stuck: while some task has not finished, some move is possible.
  lemma GateProgresses(g: Gate, capacity: nat, i: nat) returns (m: Move)
    requires Inv(g, capacity) && capacity >= 1 && i < |g.tasks| && !g.tasks[i].Finished()
    ensures Enabled(g, m)
  {
    var phase := g.tasks[i].phase;
    if phase.InFlight? {
      m := EndCall(i, true);
    } else if phase.Leaving? {
      m := Release(i);
    } else if phase.Sleeping? {
      m := Wake(i);
    } else if g.permits > 0 {
      m := Acquire(i);
    } else {
      NoHolders(g.tasks);
      var j :| 0 <= j < |g.tasks| && g.tasks[j].holds;
      assert g.tasks[j].Valid();
      m := if g.tasks[j].phase.InFlight? then EndCall(j, true) else Release(j);
    }
  }
}
