/** `agentvolve_worker.py`: commands and detached workers sharing one runs directory through two kinds of
    advisory lock, the registry lock and one worker lock per workflow. A lock belongs to whoever holds an
    open copy of it, so a dead process releases its locks, and a spawned worker inherits its launcher's. */
module Registry {
  import opened Text

  datatype Job = Start | Resume | Retry | Verify

  /** The files of one workflow directory: `workflow.json`, `jobs/`, `closed.json`, and the solution's report. */
  datatype Workflow = Workflow(requested: bool, jobs: map<nat, Job>, closed: bool, complete: bool)

  /** Neither complete nor closed. */
  predicate Open(w: Workflow) {
    !w.complete && !w.closed
  }

  /** One row of `workflow_control_state`. */
  datatype Control = Control(active: bool, complete: bool, closed: bool)

  predicate Blocks(c: Control) {
    c.active || !(c.complete || c.closed)
  }

  predicate Finished(c: Control) {
    c.complete || c.closed
  }

  // ----- `registry_status`

  /** The row reported as blocker: the last live one, or the first unfinished one when none is live. */
  ghost predicate IsBlocker(views: seq<Control>, blocker: Option<nat>) {
    match blocker
    case None => forall k :: 0 <= k < |views| ==> !views[k].active && Finished(views[k])
    case Some(b) =>
      && b < |views|
      && (views[b].active ==> forall k :: b < k < |views| ==> !views[k].active)
      && (!views[b].active ==>
            && !Finished(views[b]) && (forall k :: 0 <= k < |views| ==> !views[k].active)
            && forall k :: 0 <= k < b ==> Finished(views[k]))
  }

  predicate Quiet(views: seq<Control>) {
    forall k :: 0 <= k < |views| ==> !Blocks(views[k])
  }

  method RegistryStatus(views: seq<Control>) returns (blocker: Option<nat>)
    ensures IsBlocker(views, blocker)
    ensures blocker.None? <==> Quiet(views)
  {
    blocker := None;
    for i := 0 to |views|
      invariant IsBlocker(views[..i], blocker)
    {
      if Blocks(views[i]) && (blocker.None? || views[i].active) {
        blocker := Some(i);
      }
    }
    assert views[..|views|] == views;
  }

  // ----- processes

  /** Where one process stands. `starting` marks `start_workflow`, which also holds the registry lock. */
  datatype Process =
    | Preflighted                                           // `start_workflow` before the registry lock
    | Scanning(views: seq<Control>)                         // reading one workflow at a time
    | Creating                                              // no blocker seen
    | Requesting(w: nat)                                    // directory made, `workflow.json` not yet
    | Numbering(w: nat, job: Job, starting: bool)           // `_next_job`, before it lists the jobs
    | Writing(w: nat, job: Job, ordinal: nat, starting: bool)
    | Locking(w: nat, ordinal: nat)                         // `_spawn_worker` of a start, before the worker lock
    | Spawning(w: nat, ordinal: nat, starting: bool)
    | Releasing(w: nat, child: nat, starting: bool)         // the worker exists and shares the lock
    | Leaving                                               // before the registry lock is closed
    | Launching(w: nat, job: Job)                           // `launch_existing` before the worker lock
    | Checking(w: nat, job: Job)
    | Closing(w: nat)                                       // `close_workflow` before the worker lock
    | Sealing(w: nat)
    | Worker(w: nat, ordinal: nat)                          // `_work_main` before `_execute_job` accepts
    | Running(w: nat, job: Job)
    | Gone

  datatype System = System(workflows: seq<Workflow>, processes: seq<Process>)

  predicate HoldsRegistry(p: Process) {
    match p
    case Scanning(_) => true
    case Creating => true
    case Requesting(_) => true
    case Numbering(_, _, starting) => starting
    case Writing(_, _, _, starting) => starting
    case Locking(_, _) => true
    case Spawning(_, _, starting) => starting
    case Releasing(_, _, starting) => starting
    case Leaving => true
    case _ => false
  }

  /** The workflow whose worker lock the process holds an open copy of. */
  function LockOf(p: Process): Option<nat> {
    match p
    case Numbering(w, _, starting) => if starting then None else Some(w)
    case Writing(w, _, _, starting) => if starting then None else Some(w)
    case Spawning(w, _, _) => Some(w)
    case Releasing(w, _, _) => Some(w)
    case Checking(w, _) => Some(w)
    case Sealing(w) => Some(w)
    case Worker(w, _) => Some(w)
    case Running(w, _) => Some(w)
    case _ => None
  }

  predicate RegistryTaken(s: System) {
    exists i :: 0 <= i < |s.processes| && HoldsRegistry(s.processes[i])
  }

  predicate LockTaken(s: System, w: nat) {
    exists i :: 0 <= i < |s.processes| && LockOf(s.processes[i]) == Some(w)
  }

  // ----- steps

  lemma GreatestExists(ordinals: set<nat>) returns (max: nat)
    requires ordinals != {}
    ensures max in ordinals && forall o :: o in ordinals ==> o <= max
  {
    max :| max in ordinals;
    var rest := ordinals - {max};
    assert forall o :: o in ordinals ==> o == max || o in rest;
    if rest != {} {
      var other := GreatestExists(rest);
      max := if other > max then other else max;
    }
  }

  /** `max(ordinals, default=0) + 1` */
  function NextOrdinal(ordinals: set<nat>): (next: nat)
    ensures next > 0 && next !in ordinals
  {
    if ordinals == {} then 1 else
      assert exists max :: max in ordinals && forall o :: o in ordinals ==> o <= max by {
        var max := GreatestExists(ordinals);
      }
      var max :| max in ordinals && forall o :: o in ordinals ==> o <= max;
      max + 1
  }

  datatype Action =
    | Command(p: Process)   // an operator starts a command
    | Advance(i: nat)       // process `i` takes its next step
    | Die(i: nat)           // process `i` is killed, or gives up on any other check; its files stay
    | Complete(i: nat)      // the effect of running worker `i` seals its solution
    | Outlive(w: nat)       // an effect whose worker is dead seals its solution

  predicate IsCommand(p: Process) {
    p.Preflighted? || p.Closing? || (p.Launching? && p.job != Start)
  }

  function Becomes(s: System, i: nat, p: Process): System
    requires i < |s.processes|
  {
    s.(processes := s.processes[i := p])
  }

  function Rewrites(s: System, w: nat, to: Workflow, i: nat, p: Process): System
    requires i < |s.processes| && w < |s.workflows|
  {
    System(s.workflows[w := to], s.processes[i := p])
  }

  function View(s: System, w: nat): Control
    requires w < |s.workflows|
  {
    Control(LockTaken(s, w), s.workflows[w].complete, s.workflows[w].closed)
  }

  /** One step of process `i`. A refused command is gone. */
  function Step(s: System, i: nat): System
    requires i < |s.processes|
  {
    match s.processes[i]
    case Preflighted =>
      Becomes(s, i, if RegistryTaken(s) then Gone else Scanning([]))
    case Scanning(views) =>
      if |views| < |s.workflows| then
        Becomes(s, i, if s.workflows[|views|].requested then Scanning(views + [View(s, |views|)]) else Gone)
      else Becomes(s, i, if Quiet(views) then Creating else Gone)
    case Creating =>
      System(s.workflows + [Workflow(false, map[], false, false)], s.processes[i := Requesting(|s.workflows|)])
    case Requesting(w) =>
      if w < |s.workflows| then Rewrites(s, w, s.workflows[w].(requested := true), i, Numbering(w, Start, true)) else s
    case Numbering(w, job, starting) =>
      if w < |s.workflows| then Becomes(s, i, Writing(w, job, NextOrdinal(s.workflows[w].jobs.Keys), starting)) else s
    case Writing(w, job, ordinal, starting) =>
      if w < |s.workflows| then
        Rewrites(s, w, s.workflows[w].(jobs := s.workflows[w].jobs[ordinal := job]), i,
                 if starting then Locking(w, ordinal) else Spawning(w, ordinal, false))
      else s
    case Locking(w, ordinal) =>
      Becomes(s, i, if LockTaken(s, w) then Gone else Spawning(w, ordinal, true))
    case Spawning(w, ordinal, starting) =>
      s.(processes := s.processes[i := Releasing(w, |s.processes|, starting)] + [Worker(w, ordinal)])
    case Releasing(_, _, starting) =>
      Becomes(s, i, if starting then Leaving else Gone)
    case Leaving =>
      Becomes(s, i, Gone)
    case Launching(w, job) =>
      Becomes(s, i, if w >= |s.workflows| || LockTaken(s, w) then Gone else Checking(w, job))
    case Checking(w, job) =>
      Becomes(s, i, if w < |s.workflows| && Launchable(s.workflows[w], job) then Numbering(w, job, false) else Gone)
    case Closing(w) =>
      Becomes(s, i, if w >= |s.workflows| || !s.workflows[w].requested || LockTaken(s, w) then Gone else Sealing(w))
    case Sealing(w) =>
      if w < |s.workflows| && Open(s.workflows[w]) then Rewrites(s, w, s.workflows[w].(closed := true), i, Gone)
      else Becomes(s, i, Gone)
    case Worker(w, ordinal) =>
      Becomes(s, i, if w < |s.workflows| && s.workflows[w].requested && !s.workflows[w].closed
        && ordinal in s.workflows[w].jobs
                    then Running(w, s.workflows[w].jobs[ordinal]) else Gone)
    case Running(_, _) =>
      Becomes(s, i, Gone)
    case Gone => s
  }

  /** `launch_existing` under the worker lock; whether a retry is due is decided by `Die`. */
  predicate Launchable(w: Workflow, job: Job) {
    && w.requested
    && !w.closed
    && (job == Resume ==> !w.complete)
    && (job == Verify ==> w.complete)
  }

  function Take(s: System, action: Action): System {
    match action
    case Command(p) => if IsCommand(p) then s.(processes := s.processes + [p]) else s
    case Advance(i) => if i < |s.processes| then Step(s, i) else s
    case Die(i) => if i < |s.processes| then Becomes(s, i, Gone) else s
    case Complete(i) =>
      if i < |s.processes| && s.processes[i].Running? && s.processes[i].job != Verify
        && s.processes[i].w < |s.workflows|
      then Sealed(s, s.processes[i].w) else s
    case Outlive(w) => if w < |s.workflows| then Sealed(s, w) else s
  }

  function Sealed(s: System, w: nat): System
    requires w < |s.workflows|
  {
    s.(workflows := s.workflows[w := s.workflows[w].(complete := true)])
  }

  function Execute(actions: seq<Action>): System {
    if actions == [] then System([], [])
    else Take(Execute(actions[..|actions| - 1]), actions[|actions| - 1])
  }
}
