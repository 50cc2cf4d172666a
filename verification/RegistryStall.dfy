/** What a start killed between making its directory and writing `workflow.json` leaves behind: every later scan
    of the registry refuses at that directory, so no workflow is added again, and the directory can never be closed. */
module RegistryStall {
  import opened Registry
  import opened RegistrySafety

  /** A scan goes on, and a close seals, only past a written request. */
  predicate Requests(workflows: seq<Workflow>, p: Process) {
    match p
    case Scanning(views) => |views| <= |workflows| && forall k :: 0 <= k < |views| ==> workflows[k].requested
    case Creating => forall w :: 0 <= w < |workflows| ==> workflows[w].requested
    case Sealing(w) => w < |workflows| && workflows[w].requested
    case Requesting(w) => w < |workflows|
    case _ => true
  }

  predicate Requested(s: System) {
    && (forall p :: 0 <= p < |s.processes| ==> Requests(s.workflows, s.processes[p]))
    && forall w :: 0 <= w < |s.workflows| && s.workflows[w].closed ==> s.workflows[w].requested
  }

  predicate KeepsRequests(s: System, t: System) {
    && |s.workflows| == |t.workflows|
    && forall w :: 0 <= w < |s.workflows| ==>
         (s.workflows[w].requested ==> t.workflows[w].requested) && (t.workflows[w].closed ==> t.workflows[w].requested)
  }

  lemma CreatingRequested(s: System, i: nat)
    requires Safe(s) && Requested(s) && i < |s.processes| && s.processes[i].Creating?
    ensures Requested(Step(s, i))
  {
    hide OneOpen, OneHolder, ChildrenExist, ScanHolds;
    var t := Step(s, i);
    forall p | 0 <= p < |t.processes| ensures Requests(t.workflows, t.processes[p]) {
      assert p != i ==> !HoldsRegistry(s.processes[p]) && Requests(s.workflows, s.processes[p]);
    }
  }

  /** Where a process goes, seen with the files it leaves. */
  lemma MoverRequested(s: System, i: nat)
    requires Requested(s) && i < |s.processes| && !s.processes[i].Creating?
    ensures KeepsRequests(s, Step(s, i)) && |s.processes| <= |Step(s, i).processes|
    ensures forall p :: 0 <= p < |Step(s, i).processes| ==>
      (p < |s.processes| && p != i && Step(s, i).processes[p] == s.processes[p])
      || Requests(Step(s, i).workflows, Step(s, i).processes[p])
  {
    hide LockTaken, RegistryTaken, NextOrdinal, Launchable;
    assert Requests(s.workflows, s.processes[i]);
  }

  lemma RequestedStep(s: System, i: nat)
    requires Safe(s) && Requested(s) && i < |s.processes|
    ensures Requested(Step(s, i))
  {
    hide Safe, Step;
    if s.processes[i].Creating? {
      CreatingRequested(s, i);
    } else {
      MoverRequested(s, i);
      StillRequested(s, Step(s, i));
    }
  }

  lemma StillRequested(s: System, t: System)
    requires Requested(s) && KeepsRequests(s, t)
    requires forall p :: 0 <= p < |t.processes| ==>
      (p < |s.processes| && t.processes[p] == s.processes[p]) || Requests(t.workflows, t.processes[p])
    ensures Requested(t)
  {
    forall p | 0 <= p < |t.processes| ensures Requests(t.workflows, t.processes[p]) {
      assert p < |s.processes| ==> Requests(s.workflows, s.processes[p]);
    }
  }

  lemma RequestedTake(s: System, action: Action)
    requires Safe(s) && Requested(s)
    ensures Requested(Take(s, action))
  {
    hide Safe, Step;
    match action {
      case Advance(i) => if i < |s.processes| { RequestedStep(s, i); }
      case _ => StillRequested(s, Take(s, action));
    }
  }

  lemma {:induction false} RunRequested(actions: seq<Action>)
    ensures Requested(Execute(actions))
  {
    if actions != [] {
      var before := actions[..|actions| - 1];
      RunRequested(before);
      ExecutionSafe(before);
      hide Take, Requested;
      RequestedTake(Execute(before), actions[|actions| - 1]);
    }
  }

  // ----- a directory without its request

  predicate SomeoneRequests(s: System, w: nat) {
    exists p :: 0 <= p < |s.processes| && s.processes[p] == Requesting(w)
  }

  /** Workflow `w` has a directory and no request, and no process is about to write one. */
  predicate Stalled(s: System, w: nat) {
    w < |s.workflows| && !s.workflows[w].requested && !SomeoneRequests(s, w)
  }

  lemma StalledStep(s: System, i: nat, w: nat)
    requires Requested(s) && Stalled(s, w) && i < |s.processes|
    ensures Stalled(Step(s, i), w) && |Step(s, i).workflows| == |s.workflows|
  {
    hide LockTaken, RegistryTaken, Quiet, NextOrdinal, Launchable;
    assert Requests(s.workflows, s.processes[i]);
  }

  lemma StalledTake(s: System, action: Action, w: nat)
    requires Requested(s) && Stalled(s, w)
    ensures Stalled(Take(s, action), w) && |Take(s, action).workflows| == |s.workflows|
  {
    hide Requested, Step;
    match action {
      case Advance(i) => if i < |s.processes| { StalledStep(s, i, w); }
      case _ =>
    }
  }

  /** For good: whatever happens later, the directory stays without request and unclosed, and no workflow is added. */
  lemma {:induction false} StalledForGood(actions: seq<Action>, later: seq<Action>, w: nat)
    requires Stalled(Execute(actions), w)
    ensures var t := Execute(actions + later);
      && Stalled(t, w) && |t.workflows| == |Execute(actions).workflows|
      && !t.workflows[w].closed
    decreases |later|
  {
    RunRequested(actions + later);
    if later == [] {
      assert actions + later == actions;
    } else {
      var shorter, last := later[..|later| - 1], later[|later| - 1];
      StalledForGood(actions, shorter, w);
      RunRequested(actions + shorter);
      assert (actions + later)[..|actions + later| - 1] == actions + shorter;
      hide Requested, Stalled, Take;
      StalledTake(Execute(actions + shorter), last, w);
      StalledIsOpen(Execute(actions + later), w);
    }
  }

  lemma StalledIsOpen(s: System, w: nat)
    requires Requested(s) && Stalled(s, w)
    ensures !s.workflows[w].closed
  {
  }

  /** A directory without request gets one in some continuation exactly when its own start is still about to write
      it. */
  lemma RequestedLaterIff(actions: seq<Action>, w: nat)
    requires w < |Execute(actions).workflows| && !Execute(actions).workflows[w].requested
    ensures SomeoneRequests(Execute(actions), w) <==>
      exists later: seq<Action> :: w < |Execute(actions + later).workflows|
        && Execute(actions + later).workflows[w].requested
  {
    var s := Execute(actions);
    if SomeoneRequests(s, w) {
      var p: nat :| p < |s.processes| && s.processes[p] == Requesting(w);
      var later := [Advance(p)];
      assert (actions + later)[..|actions|] == actions;
      assert Execute(actions + later) == Take(s, Advance(p));
      assert Execute(actions + later).workflows[w].requested;
    } else {
      hide Execute;
      forall later: seq<Action> | w < |Execute(actions + later).workflows|
        ensures !Execute(actions + later).workflows[w].requested
      {
        StalledForGood(actions, later, w);
      }
    }
  }

  /** One start, killed before its request is written, is enough. */
  lemma KilledStartStalls() returns (actions: seq<Action>)
    ensures Execute(actions) == System([Workflow(false, map[], false, false)], [Gone])
    ensures Stalled(Execute(actions), 0)
  {
    hide Execute, Then;
    actions := Then([], Command(Preflighted));
    assert Execute([]) == System([], []) by {
      Nothing();
    }
    actions := Then(actions, Advance(0));
    assert Execute(actions) == System([], [Scanning([])]);
    actions := Then(actions, Advance(0));
    assert Execute(actions) == System([], [Creating]);
    actions := Then(actions, Advance(0));
    assert Execute(actions) == System([Workflow(false, map[], false, false)], [Requesting(0)]);
    actions := Then(actions, Die(0));
  }

  lemma Nothing()
    ensures Execute([]) == System([], [])
  {
  }
}
