/** What every interleaving of start, resume, retry, verify, close, worker and crash steps keeps. */
module RegistrySafety {
  import opened Text
  import opened Registry

  predicate OneOpen(workflows: seq<Workflow>) {
    forall i, j :: 0 <= i < j < |workflows| ==> !(Open(workflows[i]) && Open(workflows[j]))
  }

  predicate OneStarter(processes: seq<Process>) {
    forall p, q :: 0 <= p < q < |processes| ==> !(HoldsRegistry(processes[p]) && HoldsRegistry(processes[q]))
  }

  /** Two copies of one worker lock are the launcher's and its own worker's. */
  predicate OneHolder(processes: seq<Process>) {
    forall p, q :: 0 <= p < q < |processes| && LockOf(processes[p]).Some?
      && LockOf(processes[p]) == LockOf(processes[q])
      ==> processes[p].Releasing? && processes[p].child == q
  }

  predicate Childish(p: Process) {
    p.Worker? || p.Running? || p.Gone?
  }

  predicate ChildrenExist(processes: seq<Process>) {
    forall p :: 0 <= p < |processes| && processes[p].Releasing?
      ==> processes[p].child < |processes| && Childish(processes[processes[p].child])
  }

  /** What a scan has read stays true: completion and closure are permanent. */
  predicate ScanHolds(workflows: seq<Workflow>, p: Process) {
    match p
    case Scanning(views) =>
      && |views| <= |workflows|
      && forall k :: 0 <= k < |views| ==>
           (views[k].complete ==> workflows[k].complete) && (views[k].closed ==> workflows[k].closed)
    case Creating => forall w :: 0 <= w < |workflows| ==> !Open(workflows[w])
    case Running(w, _) => w < |workflows| && !workflows[w].closed
    case _ => true
  }

  predicate Safe(s: System) {
    && OneOpen(s.workflows)
    && OneStarter(s.processes)
    && OneHolder(s.processes)
    && ChildrenExist(s.processes)
    && forall p :: 0 <= p < |s.processes| ==> ScanHolds(s.workflows, s.processes[p])
  }

  // ----- one process moves

  predicate MayBecome(s: System, i: nat, p: Process)
    requires i < |s.processes|
  {
    var was := s.processes[i];
    && (HoldsRegistry(p) ==> HoldsRegistry(was) || !RegistryTaken(s))
    && (LockOf(p).Some? ==> LockOf(p) == LockOf(was) || !LockTaken(s, LockOf(p).value))
    && (was.Releasing? ==> LockOf(p).None?)
    && !p.Releasing?
    && (Childish(was) ==> Childish(p))
    && ScanHolds(s.workflows, p)
  }

  lemma BecomesSafe(s: System, i: nat, p: Process)
    requires Safe(s) && i < |s.processes| && MayBecome(s, i, p)
    ensures Safe(Becomes(s, i, p))
  {
    hide OneOpen, ScanHolds;
    var next := s.processes[i := p];
    assert OneStarter(next) by {
      hide OneHolder, ChildrenExist;
    }
    assert OneHolder(next) by {
      hide OneStarter, ChildrenExist;
    }
  }

  // ----- one workflow moves

  lemma RewriteSafe(s: System, w: nat, to: Workflow)
    requires Safe(s) && w < |s.workflows|
    requires s.workflows[w].complete ==> to.complete
    requires s.workflows[w].closed ==> to.closed
    requires to.closed && !s.workflows[w].closed ==>
      forall p :: 0 <= p < |s.processes| ==> !(s.processes[p].Running? && s.processes[p].w == w)
    ensures Safe(s.(workflows := s.workflows[w := to]))
  {
    hide OneStarter, OneHolder, ChildrenExist;
    var next := s.workflows[w := to];
    forall p | 0 <= p < |s.processes| ensures ScanHolds(next, s.processes[p]) {
      assert ScanHolds(s.workflows, s.processes[p]);
    }
  }

  /** Only the process that holds the registry lock, and saw no open workflow, adds one. */
  lemma CreateSafe(s: System, i: nat)
    requires Safe(s) && i < |s.processes| && s.processes[i].Creating?
    ensures Safe(Step(s, i))
  {
    hide OneHolder, ChildrenExist;
    assert ScanHolds(s.workflows, s.processes[i]);
    var made := Workflow(false, map[], false, false);
    var workflows := s.workflows + [made];
    assert OneOpen(workflows);
    var next := s.processes[i := Requesting(|s.workflows|)];
    forall p | 0 <= p < |next| ensures ScanHolds(workflows, next[p]) {
      assert ScanHolds(s.workflows, s.processes[p]);
      assert p != i ==> !HoldsRegistry(s.processes[p]);
    }
    ProcessOnly(s, i, Requesting(|s.workflows|));
  }

  lemma ProcessOnly(s: System, i: nat, p: Process)
    requires Safe(s) && i < |s.processes| && MayBecome(s, i, p)
    ensures OneStarter(s.processes[i := p]) && OneHolder(s.processes[i := p]) && ChildrenExist(s.processes[i := p])
  {
    BecomesSafe(s, i, p);
  }

  /** The worker shares its launcher's lock, and nobody else's. */
  lemma SpawnSafe(s: System, i: nat)
    requires Safe(s) && i < |s.processes| && s.processes[i].Spawning?
    ensures Safe(Step(s, i))
  {
    hide OneOpen;
    var next := Step(s, i).processes;
    assert OneStarter(next) by {
      hide OneHolder, ChildrenExist, ScanHolds;
    }
    assert OneHolder(next) by {
      hide OneStarter, ScanHolds;
    }
    forall p | 0 <= p < |next| ensures ScanHolds(s.workflows, next[p]) {
      if p < |s.processes| {
        assert ScanHolds(s.workflows, s.processes[p]);
      }
    }
  }

  /** `close_workflow` holds the worker lock, so no worker of that workflow is running. */
  lemma SealSafe(s: System, i: nat)
    requires Safe(s) && i < |s.processes| && s.processes[i].Sealing?
    ensures Safe(Step(s, i))
  {
    var w := s.processes[i].w;
    if w < |s.workflows| && Open(s.workflows[w]) {
      forall p | 0 <= p < |s.processes| ensures !(s.processes[p].Running? && s.processes[p].w == w) {
        assert LockOf(s.processes[i]) == Some(w);
        assert s.processes[p].Running? ==> LockOf(s.processes[p]) == Some(s.processes[p].w);
      }
      hide OneStarter, OneHolder, ChildrenExist, OneOpen, ScanHolds;
      var to := s.workflows[w].(closed := true);
      RewriteSafe(s, w, to);
      GoneSafe(s.(workflows := s.workflows[w := to]), i);
    } else {
      GoneSafe(s, i);
    }
  }

  lemma GoneSafe(s: System, i: nat)
    requires Safe(s) && i < |s.processes|
    ensures Safe(Becomes(s, i, Gone))
  {
    hide OneStarter, OneHolder, ChildrenExist, OneOpen;
    BecomesSafe(s, i, Gone);
  }

  lemma ScanSafe(s: System, i: nat)
    requires Safe(s) && i < |s.processes| && s.processes[i].Scanning?
    ensures Safe(Step(s, i))
  {
    hide OneStarter, OneHolder, ChildrenExist, OneOpen, LockTaken;
    var views := s.processes[i].views;
    assert ScanHolds(s.workflows, s.processes[i]);
    if |views| < |s.workflows| {
      var more := views + [View(s, |views|)];
      assert ScanHolds(s.workflows, Scanning(more));
    } else if Quiet(views) {
      assert forall w :: 0 <= w < |s.workflows| ==> !Blocks(views[w]);
      assert ScanHolds(s.workflows, Creating);
    }
    var next :| Step(s, i) == Becomes(s, i, next) && MayBecome(s, i, next);
    BecomesSafe(s, i, next);
  }

  lemma WriteSafe(s: System, i: nat)
    requires Safe(s) && i < |s.processes| && (s.processes[i].Requesting? || s.processes[i].Writing?)
    ensures Safe(Step(s, i))
  {
    hide OneStarter, OneHolder, ChildrenExist, OneOpen, LockTaken, RegistryTaken;
    match s.processes[i] {
      case Requesting(w) =>
        if w < |s.workflows| {
          var to := s.workflows[w].(requested := true);
          RewriteSafe(s, w, to);
          BecomesSafe(s.(workflows := s.workflows[w := to]), i, Numbering(w, Start, true));
        }
      case Writing(w, job, ordinal, starting) =>
        if w < |s.workflows| {
          var to := s.workflows[w].(jobs := s.workflows[w].jobs[ordinal := job]);
          RewriteSafe(s, w, to);
          BecomesSafe(s.(workflows := s.workflows[w := to]), i,
            if starting then Locking(w, ordinal) else Spawning(w, ordinal, false));
        }
    }
  }

  lemma StepSafe(s: System, i: nat)
    requires Safe(s) && i < |s.processes|
    ensures Safe(Step(s, i))
  {
    hide OneStarter, OneHolder, ChildrenExist, OneOpen;
    match s.processes[i] {
      case Scanning(_) => ScanSafe(s, i);
      case Creating => CreateSafe(s, i);
      case Requesting(_) => WriteSafe(s, i);
      case Writing(_, _, _, _) => WriteSafe(s, i);
      case Spawning(_, _, _) => SpawnSafe(s, i);
      case Sealing(_) => SealSafe(s, i);
      case Gone =>
      case Preflighted => BecomesSafe(s, i, if RegistryTaken(s) then Gone else Scanning([]));
      case Numbering(w, job, starting) =>
        if w < |s.workflows| {
          BecomesSafe(s, i, Writing(w, job, NextOrdinal(s.workflows[w].jobs.Keys), starting));
        }
      case _ =>
        PlainStepSafe(s, i);
    }
  }

  /** Steps that change no file and only test files and locks. */
  lemma PlainStepSafe(s: System, i: nat)
    requires Safe(s) && i < |s.processes|
    requires var p := s.processes[i];
      p.Locking? || p.Releasing? || p.Leaving? || p.Launching? || p.Checking? || p.Closing? || p.Worker? || p.Running?
    ensures Safe(Step(s, i))
  {
    hide OneStarter, OneHolder, ChildrenExist, OneOpen, RegistryTaken, LockTaken;
    var p := Step(s, i).processes[i];
    assert Step(s, i) == Becomes(s, i, p);
    assert MayBecome(s, i, p);
    BecomesSafe(s, i, p);
  }

  lemma CommandSafe(s: System, p: Process)
    requires Safe(s) && IsCommand(p)
    ensures Safe(s.(processes := s.processes + [p]))
  {
    hide OneOpen;
    var next := s.processes + [p];
    assert !HoldsRegistry(p) && LockOf(p).None? && !p.Releasing?;
  }

  lemma TakeSafe(s: System, action: Action)
    requires Safe(s)
    ensures Safe(Take(s, action))
  {
    hide OneStarter, OneHolder, ChildrenExist, OneOpen, Step;
    match action {
      case Command(p) => if IsCommand(p) { CommandSafe(s, p); }
      case Advance(i) => if i < |s.processes| { StepSafe(s, i); }
      case Die(i) => if i < |s.processes| { GoneSafe(s, i); }
      case Complete(i) =>
        if i < |s.processes| && s.processes[i].Running? && s.processes[i].w < |s.workflows| {
          RewriteSafe(s, s.processes[i].w, s.workflows[s.processes[i].w].(complete := true));
        }
      case Outlive(w) => if w < |s.workflows| { RewriteSafe(s, w, s.workflows[w].(complete := true)); }
    }
  }

  lemma {:induction false} ExecutionSafe(actions: seq<Action>)
    ensures Safe(Execute(actions))
  {
    if actions != [] {
      ExecutionSafe(actions[..|actions| - 1]);
      TakeSafe(Execute(actions[..|actions| - 1]), actions[|actions| - 1]);
    }
  }

  // ----- the promises

  /** At most one workflow is neither complete nor closed. */
  lemma AtMostOneOpen(actions: seq<Action>, v: nat, w: nat)
    requires v < w < |Execute(actions).workflows|
    ensures !(Open(Execute(actions).workflows[v]) && Open(Execute(actions).workflows[w]))
  {
    ExecutionSafe(actions);
  }

  /** At most one worker of a workflow is alive, and while it is nobody else but its launcher holds the lock. */
  lemma AtMostOneWorker(actions: seq<Action>, p: nat, q: nat)
    requires var s := Execute(actions);
      && p < |s.processes| && q < |s.processes|
      && (s.processes[q].Worker? || s.processes[q].Running?)
      && LockOf(s.processes[p]) == LockOf(s.processes[q])
    ensures p == q || (Execute(actions).processes[p].Releasing? && Execute(actions).processes[p].child == q)
  {
    ExecutionSafe(actions);
    hide Execute;
    var s := Execute(actions);
    assert OneHolder(s.processes);
  }

  /** Closing is permanent, and from then on no process of the workflow is running or starts to run a job. */
  lemma ClosedNeverRuns(actions: seq<Action>, later: seq<Action>, w: nat, p: nat)
    requires w < |Execute(actions).workflows| && Execute(actions).workflows[w].closed
    requires p < |Execute(actions + later).processes|
    ensures w < |Execute(actions + later).workflows| && Execute(actions + later).workflows[w].closed
    ensures !(Execute(actions + later).processes[p].Running? && Execute(actions + later).processes[p].w == w)
  {
    StaysClosed(actions, later, w);
    ExecutionSafe(actions + later);
    hide Execute;
    var s := Execute(actions + later);
    assert ScanHolds(s.workflows, s.processes[p]);
  }

  lemma {:induction false} StaysClosed(actions: seq<Action>, later: seq<Action>, w: nat)
    requires w < |Execute(actions).workflows| && Execute(actions).workflows[w].closed
    ensures w < |Execute(actions + later).workflows| && Execute(actions + later).workflows[w].closed
    decreases |later|
  {
    if later == [] {
      assert actions + later == actions;
    } else {
      var shorter, last := later[..|later| - 1], later[|later| - 1];
      StaysClosed(actions, shorter, w);
      assert (actions + later)[..|actions + later| - 1] == actions + shorter;
      KeepsClosed(Execute(actions + shorter), last, w);
    }
  }

  lemma KeepsClosed(s: System, action: Action, w: nat)
    requires w < |s.workflows| && s.workflows[w].closed
    ensures w < |Take(s, action).workflows| && Take(s, action).workflows[w].closed
  {
  }

  /** Unless an effect outlives its worker, no workflow is both complete and closed as incomplete. */
  lemma {:induction false} CompleteOrClosed(actions: seq<Action>, w: nat)
    requires forall a :: a in actions ==> !a.Outlive?
    requires w < |Execute(actions).workflows|
    ensures !(Execute(actions).workflows[w].complete && Execute(actions).workflows[w].closed)
  {
    if actions != [] {
      var before, last := actions[..|actions| - 1], actions[|actions| - 1];
      ExecutionSafe(before);
      if w < |Execute(before).workflows| {
        CompleteOrClosed(before, w);
      }
      hide Execute;
      ExclusiveStep(Execute(before), last, w);
    }
  }

  lemma ExclusiveStep(s: System, action: Action, w: nat)
    requires Safe(s) && !action.Outlive? && w < |Take(s, action).workflows|
    requires w < |s.workflows| ==> !(s.workflows[w].complete && s.workflows[w].closed)
    ensures !(Take(s, action).workflows[w].complete && Take(s, action).workflows[w].closed)
  {
    hide OneStarter, OneHolder, ChildrenExist, OneOpen, LockTaken, RegistryTaken;
    match action {
      case Complete(i) =>
        if i < |s.processes| {
          assert ScanHolds(s.workflows, s.processes[i]);
        }
      case _ =>
    }
  }

  // ----- a start with the registry to itself

  /** Process `i` takes `n` steps in a row. */
  function Walk(s: System, i: nat, n: nat): System
    requires i < |s.processes|
    decreases n
  {
    if n == 0 then s else Walk(Step(s, i), i, n - 1)
  }

  /** Every workflow has its request, no live worker, and is complete or closed. */
  predicate Settled(s: System) {
    forall w :: 0 <= w < |s.workflows| ==>
      s.workflows[w].requested && !LockTaken(s, w) && (s.workflows[w].complete || s.workflows[w].closed)
  }

  /** A scan reads every workflow, and goes on exactly when none blocks. */
  lemma {:induction false} ScanDecides(s: System, i: nat, n: nat)
    requires i < |s.processes| && s.processes[i].Scanning? && |s.processes[i].views| + n == |s.workflows|
    requires forall k :: 0 <= k < |s.processes[i].views| ==>
      s.workflows[k].requested && s.processes[i].views[k] == View(s, k)
    ensures var p := if Settled(s) then Creating else Gone;
      Walk(s, i, n + 1) == Becomes(s, i, p)
    decreases n
  {
    hide LockTaken;
    var views := s.processes[i].views;
    if n == 0 {
      assert Quiet(views) <==> Settled(s);
      assert Walk(Step(s, i), i, 0) == Step(s, i);
    } else if s.workflows[|views|].requested {
      var next := Becomes(s, i, Scanning(views + [View(s, |views|)]));
      LocksAlike(s, i, Scanning(views + [View(s, |views|)]));
      assert Step(s, i) == next;
      ScanDecides(next, i, n - 1);
      assert Settled(next) <==> Settled(s);
      assert Walk(s, i, n + 1) == Walk(next, i, n);
    } else {
      assert Step(s, i) == Becomes(s, i, Gone);
      StaysGone(Step(s, i), i, n);
    }
  }

  /** Which worker locks are taken depends only on what each process holds. */
  lemma LocksAlike(s: System, i: nat, p: Process)
    requires i < |s.processes| && LockOf(p) == LockOf(s.processes[i])
    ensures forall w: nat :: LockTaken(Becomes(s, i, p), w) <==> LockTaken(s, w)
  {
    var next := Becomes(s, i, p);
    assert forall k :: 0 <= k < |s.processes| ==> LockOf(next.processes[k]) == LockOf(s.processes[k]);
    forall w: nat ensures LockTaken(next, w) <==> LockTaken(s, w) {
      if LockTaken(s, w) {
        var k :| 0 <= k < |s.processes| && LockOf(s.processes[k]) == Some(w);
        assert LockOf(next.processes[k]) == Some(w);
      }
    }
  }

  lemma {:induction false} StaysGone(s: System, i: nat, n: nat)
    requires i < |s.processes| && s.processes[i].Gone?
    ensures Walk(s, i, n) == s
  {
    if n > 0 {
      StaysGone(s, i, n - 1);
    }
  }

  /** From the decision on, a start makes one workflow, writes job 1, and hands it to a worker that runs it. */
  lemma CreatingRuns(s: System, i: nat)
    requires i < |s.processes| && s.processes[i].Creating? && !LockTaken(s, |s.workflows|)
    ensures var w := |s.workflows|;
      var t := Walk(s, i, 6);
      && |t.processes| == |s.processes| + 1
      && t.workflows == s.workflows + [Workflow(true, map[1 := Start], false, false)]
      && t.processes[i] == Releasing(w, |s.processes|, true)
      && Step(t, |s.processes|).processes[|s.processes|] == Running(w, Start)
  {
    var w := |s.workflows|;
    var s1 := Step(s, i);
    var s2 := Step(s1, i);
    var s3 := Step(s2, i);
    var s4 := Step(s3, i);
    assert s4.processes[i] == Locking(w, 1);
    assert s4.workflows == s.workflows + [Workflow(true, map[1 := Start], false, false)];
    LocksAlike(s, i, Locking(w, 1));
    assert s4.processes == Becomes(s, i, Locking(w, 1)).processes;
    var s5 := Step(s4, i);
    var s6 := Step(s5, i);
    assert Walk(s, i, 6) == Walk(s1, i, 5) == Walk(s2, i, 4) == Walk(s3, i, 3) == Walk(s4, i, 2) == Walk(s5, i, 1) ==
      Walk(s6, i, 0);
  }

  /** Left alone, a start begun on a free registry creates a workflow if and only if nothing blocks it. */
  lemma StartDecides(s: System, i: nat)
    requires i < |s.processes| && s.processes[i].Preflighted? && !RegistryTaken(s)
    ensures var p := if Settled(s) then Creating else Gone;
      Walk(s, i, |s.workflows| + 2) == Becomes(s, i, p)
  {
    var next := Becomes(s, i, Scanning([]));
    LocksAlike(s, i, Scanning([]));
    hide RegistryTaken, LockTaken;
    assert Step(s, i) == next;
    ScanDecides(next, i, |s.workflows|);
    assert Settled(next) <==> Settled(s);
    assert Walk(s, i, |s.workflows| + 2) == Walk(next, i, |s.workflows| + 1);
  }

  // ----- runs step by step

  function Then(actions: seq<Action>, action: Action): (next: seq<Action>)
    ensures Execute(next) == Take(Execute(actions), action)
  {
    assert (actions + [action])[..|actions|] == actions;
    actions + [action]
  }

  lemma Unheld(s: System, w: nat)
    requires forall i :: 0 <= i < |s.processes| ==> LockOf(s.processes[i]) != Some(w)
    ensures !LockTaken(s, w)
  {
  }
}
