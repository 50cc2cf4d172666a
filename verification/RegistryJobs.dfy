/** Which jobs the commands of `agentvolve_worker.py` let through, and on which workflows they run. */
module RegistryJobs {
  import opened Registry

  /** Under the worker lock a command goes on exactly when its workflow has a request and is not closed, a resume finds
      it incomplete, and a verification finds it complete; otherwise it is gone. */
  lemma LaunchesIff(s: System, i: nat, w: nat, job: Job)
    requires i < |s.processes| && s.processes[i] == Checking(w, job)
    ensures Step(s, i).workflows == s.workflows
    ensures Step(s, i).processes[i] == Numbering(w, job, false) <==>
      && w < |s.workflows| && s.workflows[w].requested && !s.workflows[w].closed
      && !(job == Resume && s.workflows[w].complete) && !(job == Verify && !s.workflows[w].complete)
    ensures Step(s, i).processes[i] in {Numbering(w, job, false), Gone}
  {
  }

  /** A process that carries or runs a verification. */
  predicate Verifying(p: Process) {
    (p.Numbering? || p.Writing? || p.Running?) && p.job == Verify
  }

  predicate JobsFit(s: System) {
    && (forall p :: 0 <= p < |s.processes| && Verifying(s.processes[p]) ==>
          s.processes[p].w < |s.workflows| && s.workflows[s.processes[p].w].complete)
    && forall w :: 0 <= w < |s.workflows| && Verify in s.workflows[w].jobs.Values ==> s.workflows[w].complete
  }

  predicate KeepsComplete(s: System, t: System) {
    && |s.workflows| <= |t.workflows|
    && forall w :: 0 <= w < |s.workflows| && s.workflows[w].complete ==> t.workflows[w].complete
  }

  lemma StepFits(s: System, i: nat)
    requires JobsFit(s) && i < |s.processes|
    ensures JobsFit(Step(s, i))
  {
    hide LockTaken, RegistryTaken, Quiet, NextOrdinal;
    var t := Step(s, i);
    assert KeepsComplete(s, t);
    forall w | 0 <= w < |t.workflows| && Verify in t.workflows[w].jobs.Values ensures t.workflows[w].complete {
      var o :| o in t.workflows[w].jobs && t.workflows[w].jobs[o] == Verify;
      assert w < |s.workflows| && o in s.workflows[w].jobs ==> s.workflows[w].jobs[o] in s.workflows[w].jobs.Values;
    }
    forall q | 0 <= q < |t.processes| && Verifying(t.processes[q])
      ensures t.processes[q].w < |t.workflows| && t.workflows[t.processes[q].w].complete
    {
      if s.processes[i].Worker? && q == i {
        assert s.workflows[s.processes[i].w].jobs[s.processes[i].ordinal] in s.workflows[s.processes[i].w].jobs.Values;
      }
    }
  }

  lemma TakeFits(s: System, action: Action)
    requires JobsFit(s)
    ensures JobsFit(Take(s, action))
  {
    hide Step;
    match action {
      case Advance(i) => if i < |s.processes| { StepFits(s, i); }
      case _ =>
        assert KeepsComplete(s, Take(s, action));
    }
  }

  /** In every run a verification is numbered, written or running only on a complete workflow. */
  lemma {:induction false} VerifiesOnlyComplete(actions: seq<Action>)
    ensures JobsFit(Execute(actions))
  {
    if actions != [] {
      VerifiesOnlyComplete(actions[..|actions| - 1]);
      hide Take, JobsFit;
      TakeFits(Execute(actions[..|actions| - 1]), actions[|actions| - 1]);
    }
  }
}
