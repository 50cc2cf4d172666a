/** The job numbers of `agentvolve_worker.py`. `_next_job` lists the job files and takes the next number; a resume,
    a retry or a verification does so under the worker lock, but a start does so before it takes that lock.
    A history of the writes says exactly which writes meet a number already given. */
module RegistryNumbers {
  import opened Registry
  import opened RegistrySafety

  /** `p` has a number for a job of `w` and has not written it: the start's, or that of a later launch. */
  predicate StartWrites(p: Process, w: nat) {
    p.Writing? && p.w == w && p.starting
  }

  predicate LaunchWrites(p: Process, w: nat) {
    p.Writing? && p.w == w && !p.starting
  }

  /** `raced`: a launch wrote a job of this workflow while the start had its number and had not written it.
      `passed`: the start wrote its job while this launch had its number and has not written it. */
  datatype History = History(raced: set<nat>, passed: set<nat>)

  ghost predicate StartIsWriting(s: System, w: nat) {
    exists p :: 0 <= p < |s.processes| && StartWrites(s.processes[p], w)
  }

  ghost predicate LaunchIsWriting(s: System, w: nat) {
    exists p :: 0 <= p < |s.processes| && LaunchWrites(s.processes[p], w)
  }

  ghost function Launches(s: System, w: nat): set<nat> {
    set p: nat | 0 <= p < |s.processes| && LaunchWrites(s.processes[p], w)
  }

  ghost function Recall(h: History, s: System, action: Action): History {
    match action
    case Advance(i) => if i < |s.processes| && s.processes[i].Writing? then Written(h, s, i) else h
    case Die(i) => h.(passed := h.passed - {i})
    case _ => h
  }

  ghost function Written(h: History, s: System, i: nat): History
    requires i < |s.processes| && s.processes[i].Writing?
  {
    var w := s.processes[i].w;
    if s.processes[i].starting then h.(passed := h.passed + Launches(s, w))
    else History(if StartIsWriting(s, w) then h.raced + {w} else h.raced, h.passed - {i})
  }

  ghost function Past(actions: seq<Action>): History {
    if actions == [] then History({}, {})
    else
      var before := actions[..|actions| - 1];
      Recall(Past(before), Execute(before), actions[|actions| - 1])
  }

  // ----- what the history says about the numbers

  /** The one process of `w` that will number the start's job, before it does. */
  predicate Unnumbered(p: Process, w: nat) {
    (p.Requesting? && p.w == w) || (p.Numbering? && p.w == w && p.starting)
  }

  predicate Busy(p: Process) {
    p.Requesting? || p.Numbering? || p.Writing?
  }

  predicate InRange(s: System) {
    forall p :: 0 <= p < |s.processes| && Busy(s.processes[p]) ==> s.processes[p].w < |s.workflows|
  }

  predicate RacedIsPast(s: System, h: History) {
    forall w :: w in h.raced ==>
      w < |s.workflows| && forall p :: 0 <= p < |s.processes| ==> !Unnumbered(s.processes[p], w)
  }

  predicate PassedIsPast(s: System, h: History) {
    forall q :: q in h.passed ==>
      && q < |s.processes| && s.processes[q].Writing? && !s.processes[q].starting
      && forall p :: 0 <= p < |s.processes| ==>
           !Unnumbered(s.processes[p], s.processes[q].w) && !StartWrites(s.processes[p], s.processes[q].w)
  }

  /** `p` carries a number that some file already has. */
  predicate Stale(s: System, h: History, p: nat)
    requires p < |s.processes| && s.processes[p].Writing?
  {
    if s.processes[p].starting then s.processes[p].w in h.raced
    else p in h.passed && s.processes[p].w !in h.raced
  }

  predicate HasNumber(s: System, h: History, p: nat)
    requires p < |s.processes| && s.processes[p].Writing? && s.processes[p].w < |s.workflows|
  {
    var jobs := s.workflows[s.processes[p].w].jobs;
    if Stale(s, h, p) then s.processes[p].ordinal in jobs else s.processes[p].ordinal == NextOrdinal(jobs.Keys)
  }

  predicate Numbers(s: System, h: History)
    requires InRange(s)
  {
    forall p :: 0 <= p < |s.processes| && s.processes[p].Writing? ==> HasNumber(s, h, p)
  }

  predicate Tracks(s: System, h: History) {
    InRange(s) && RacedIsPast(s, h) && PassedIsPast(s, h) && Numbers(s, h)
  }

  // ----- each step keeps it

  predicate SameJobs(s: System, t: System) {
    |s.workflows| <= |t.workflows| && forall w :: 0 <= w < |s.workflows| ==> t.workflows[w].jobs == s.workflows[w].jobs
  }

  /** A step that writes no job, and after which every process that has moved is past its own write or before its
      request. */
  lemma IdleTracks(s: System, h: History, t: System, h': History)
    requires Tracks(s, h) && SameJobs(s, t) && |s.processes| <= |t.processes|
    requires forall p :: 0 <= p < |t.processes| ==>
      !Busy(t.processes[p]) || (p < |s.processes| && t.processes[p] == s.processes[p])
    requires h'.raced == h.raced && h'.passed <= h.passed
    requires forall q :: q in h.passed ==> q in h'.passed || !Busy(t.processes[q])
    requires forall q :: q in h'.passed ==> t.processes[q] == s.processes[q]
    ensures Tracks(t, h')
  {
  }

  lemma CreatingTracks(s: System, h: History, i: nat)
    requires Tracks(s, h) && i < |s.processes| && s.processes[i].Creating?
    ensures Tracks(Step(s, i), h)
  {
    var t := Step(s, i);
    assert SameJobs(s, t);
  }

  lemma RequestingTracks(s: System, h: History, i: nat)
    requires Tracks(s, h) && i < |s.processes| && (s.processes[i].Requesting? || s.processes[i].Checking?)
    ensures Tracks(Step(s, i), h)
  {
    var t := Step(s, i);
    assert SameJobs(s, t);
    assert InRange(t);
  }

  /** Numbering under the history: the number is the next one, and nothing has been written since. */
  lemma NumberingTracks(s: System, h: History, i: nat)
    requires Tracks(s, h) && i < |s.processes| && s.processes[i].Numbering?
    ensures Tracks(Step(s, i), h)
  {
    hide NextOrdinal;
    var t := Step(s, i);
    assert InRange(t);
    assert i !in h.passed;
  }

  lemma StartWriteTracks(s: System, h: History, i: nat)
    requires Safe(s) && Tracks(s, h) && i < |s.processes| && s.processes[i].Writing? && s.processes[i].starting
    ensures Tracks(Step(s, i), Written(h, s, i))
  {
    hide NextOrdinal, OneOpen, OneHolder, ChildrenExist, ScanHolds;
    var t, h' := Step(s, i), Written(h, s, i);
    var w, o := s.processes[i].w, s.processes[i].ordinal;
    assert InRange(t) && RacedIsPast(t, h');
    assert PassedIsPast(t, h') by {
      assert forall p :: 0 <= p < |s.processes| && p != i ==> !HoldsRegistry(s.processes[p]);
    }
    forall p | 0 <= p < |t.processes| && t.processes[p].Writing? ensures HasNumber(t, h', p) {
      assert p != i && !s.processes[p].starting && HasNumber(s, h, p);
      if s.processes[p].w == w {
        assert p !in h.passed && p in h'.passed;
        assert HasNumber(s, h, i);
        if w in h.raced {
          assert t.workflows[w].jobs.Keys == s.workflows[w].jobs.Keys;
        }
      }
    }
  }

  lemma LaunchWriteTracks(s: System, h: History, i: nat)
    requires Safe(s) && Tracks(s, h) && i < |s.processes| && s.processes[i].Writing? && !s.processes[i].starting
    ensures Tracks(Step(s, i), Written(h, s, i))
  {
    hide NextOrdinal, OneOpen, ChildrenExist, ScanHolds;
    var t, h' := Step(s, i), Written(h, s, i);
    var w, o := s.processes[i].w, s.processes[i].ordinal;
    assert InRange(t);
    assert RacedIsPast(t, h') by {
      hide OneHolder;
    }
    assert PassedIsPast(t, h');
    forall p | 0 <= p < |t.processes| && t.processes[p].Writing? ensures HasNumber(t, h', p) {
      assert p != i && HasNumber(s, h, p);
      if s.processes[p].w == w {
        assert s.processes[p].starting;
        assert StartIsWriting(s, w) && i !in h.passed;
        assert HasNumber(s, h, i);
      }
    }
  }

  lemma AdvanceTracks(s: System, h: History, i: nat)
    requires Safe(s) && Tracks(s, h) && i < |s.processes|
    ensures Tracks(Step(s, i), Recall(h, s, Advance(i)))
  {
    hide Safe, Written, NextOrdinal;
    match s.processes[i] {
      case Writing(_, _, _, starting) =>
        hide Tracks;
        if starting {
          StartWriteTracks(s, h, i);
        } else {
          LaunchWriteTracks(s, h, i);
        }
      case Creating => CreatingTracks(s, h, i);
      case Requesting(_) => RequestingTracks(s, h, i);
      case Checking(_, _) => RequestingTracks(s, h, i);
      case Numbering(_, _, _) => NumberingTracks(s, h, i);
      case _ => IdleStepTracks(s, h, i);
    }
  }

  /** The steps outside numbering, writing and what leads to them. */
  lemma IdleStepTracks(s: System, h: History, i: nat)
    requires Tracks(s, h) && i < |s.processes|
    requires !Busy(s.processes[i]) && !s.processes[i].Creating? && !s.processes[i].Checking?
    ensures Tracks(Step(s, i), h)
  {
    hide Tracks, LockTaken, RegistryTaken, Quiet, Launchable, NextOrdinal;
    IdleStays(s, h, i);
    IdleTracks(s, h, Step(s, i), h);
  }

  lemma IdleStays(s: System, h: History, i: nat)
    requires Tracks(s, h) && i < |s.processes| && !Busy(s.processes[i])
    ensures i !in h.passed && forall q :: q in h.passed ==> q < |s.processes|
  {
    hide Numbers, RacedIsPast, InRange;
  }

  lemma TakeTracks(s: System, h: History, action: Action)
    requires Safe(s) && Tracks(s, h)
    ensures Tracks(Take(s, action), Recall(h, s, action))
  {
    hide Safe, Written, NextOrdinal, Step;
    match action {
      case Advance(i) => if i < |s.processes| { AdvanceTracks(s, h, i); }
      case _ => IdleTracks(s, h, Take(s, action), Recall(h, s, action));
    }
  }

  lemma {:induction false} RunTracks(actions: seq<Action>)
    ensures Tracks(Execute(actions), Past(actions))
  {
    hide Tracks, Take, Recall;
    if actions == [] {
      EmptyTracks();
    } else {
      var before := actions[..|actions| - 1];
      RunTracks(before);
      ExecutionSafe(before);
      TakeTracks(Execute(before), Past(before), actions[|actions| - 1]);
    }
  }

  lemma EmptyTracks()
    ensures Tracks(Execute([]), Past([]))
  {
  }

  // ----- when a number is given twice

  /** The write of `p` meets a file of the same number, or another process about to write one. */
  ghost predicate Clashes(s: System, p: nat)
    requires p < |s.processes| && s.processes[p].Writing? && s.processes[p].w < |s.workflows|
  {
    || s.processes[p].ordinal in s.workflows[s.processes[p].w].jobs
    || exists q :: Shares(s, p, q)
  }

  predicate Shares(s: System, p: nat, q: int)
    requires p < |s.processes| && s.processes[p].Writing?
  {
    && 0 <= q < |s.processes| && q != p && s.processes[q].Writing?
    && s.processes[q].w == s.processes[p].w && s.processes[q].ordinal == s.processes[p].ordinal
  }

  /** In every run, a process about to write meets an existing job file of its number exactly when it is the start
      and a launch has written since it numbered, or it is a launch, the start has written since it numbered, and
      the start's own number was new. */
  lemma OverwritesIff(actions: seq<Action>, p: nat)
    requires p < |Execute(actions).processes| && Execute(actions).processes[p].Writing?
    ensures var s, h := Execute(actions), Past(actions);
      var w := s.processes[p].w;
      && w < |s.workflows|
      && (s.processes[p].ordinal in s.workflows[w].jobs <==>
          if s.processes[p].starting then w in h.raced else p in h.passed && w !in h.raced)
      && (s.processes[p].ordinal !in s.workflows[w].jobs ==>
          s.processes[p].ordinal == NextOrdinal(s.workflows[w].jobs.Keys))
  {
    RunTracks(actions);
    hide Execute, Past;
    var s, h := Execute(actions), Past(actions);
    assert HasNumber(s, h, p);
  }

  /** Two processes about to write jobs of one workflow are its start and one launch, and they carry one number
      exactly when no launch has written since the start numbered. */
  lemma RivalWriters(actions: seq<Action>, p: nat, q: nat)
    requires var s := Execute(actions);
      && p < |s.processes| && q < |s.processes| && p != q
      && s.processes[p].Writing? && s.processes[q].Writing? && s.processes[p].w == s.processes[q].w
    ensures Execute(actions).processes[p].starting != Execute(actions).processes[q].starting
    ensures Execute(actions).processes[p].ordinal == Execute(actions).processes[q].ordinal <==>
      Execute(actions).processes[p].w !in Past(actions).raced
  {
    ExecutionSafe(actions);
    RunTracks(actions);
    hide Execute, Past, NextOrdinal;
    var s, h := Execute(actions), Past(actions);
    assert s.processes[p].starting != s.processes[q].starting by {
      assert OneHolder(s.processes) && OneStarter(s.processes);
    }
    assert HasNumber(s, h, p) && HasNumber(s, h, q);
    var launch := if s.processes[p].starting then q else p;
    assert launch !in h.passed;
  }

  /** Exactly which writes meet a number already given. Every other number written is new, and no other process
      is about to write it. */
  lemma ClashesIff(actions: seq<Action>, p: nat)
    requires p < |Execute(actions).processes| && Execute(actions).processes[p].Writing?
    ensures var s, h := Execute(actions), Past(actions);
      var w := s.processes[p].w;
      && w < |s.workflows|
      && (Clashes(s, p) <==>
          if s.processes[p].starting then w in h.raced || LaunchIsWriting(s, w)
          else w !in h.raced && (p in h.passed || StartIsWriting(s, w)))
  {
    OverwritesIff(actions, p);
    var s, h := Execute(actions), Past(actions);
    hide Execute, Past, NextOrdinal;
    var w := s.processes[p].w;
    forall q | 0 <= q < |s.processes| && q != p && s.processes[q].Writing? && s.processes[q].w == w
      ensures s.processes[p].starting != s.processes[q].starting
      ensures Shares(s, p, q) <==> w !in h.raced
    {
      RivalWriters(actions, p, q);
    }
    if s.processes[p].starting {
      if LaunchIsWriting(s, w) && w !in h.raced {
        var q: nat :| q < |s.processes| && LaunchWrites(s.processes[q], w);
        assert Shares(s, p, q);
      }
    } else if StartIsWriting(s, w) && w !in h.raced {
      var q: nat :| q < |s.processes| && StartWrites(s.processes[q], w);
      assert Shares(s, p, q);
    }
  }

  // ----- over whole runs

  /** The start and a launch of `w` have both numbered a job and neither has written it. */
  ghost predicate WritersMeet(actions: seq<Action>, w: nat) {
    StartIsWriting(Execute(actions), w) && LaunchIsWriting(Execute(actions), w)
  }

  ghost predicate NumberClashes(actions: seq<Action>, w: nat, p: nat) {
    var s := Execute(actions);
    p < |s.processes| && s.processes[p].Writing? && s.processes[p].w == w < |s.workflows| && Clashes(s, p)
  }

  /** Whatever the history records was seen while both were about to write. */
  lemma {:induction false} HistoryMeans(actions: seq<Action>, w: nat)
    requires w in Past(actions).raced
      || exists q :: q in Past(actions).passed && q < |Execute(actions).processes|
           && LaunchWrites(Execute(actions).processes[q], w)
    ensures exists n: nat :: n <= |actions| && WritersMeet(actions[..n], w)
  {
    if actions != [] {
      var m := |actions| - 1;
      var before, last := actions[..m], actions[m];
      if w in Past(before).raced
        || exists q :: q in Past(before).passed && q < |Execute(before).processes|
             && LaunchWrites(Execute(before).processes[q], w) {
        HistoryMeans(before, w);
        var n: nat :| n <= |before| && WritersMeet(before[..n], w);
        assert before[..n] == actions[..n];
        assert n <= |actions| && WritersMeet(actions[..n], w);
      } else {
        RunTracks(before);
        RunTracks(actions);
        assert Execute(actions) == Take(Execute(before), last);
        assert Past(actions) == Recall(Past(before), Execute(before), last);
        MeetNow(Execute(before), Past(before), last, w);
        assert WritersMeet(actions[..m], w);
      }
    }
  }

  lemma MeetNow(s: System, h: History, action: Action, w: nat)
    requires Tracks(s, h) && Tracks(Take(s, action), Recall(h, s, action))
    requires w !in h.raced && forall q :: q in h.passed && q < |s.processes| ==> !LaunchWrites(s.processes[q], w)
    requires w in Recall(h, s, action).raced
      || exists q :: q in Recall(h, s, action).passed && q < |Take(s, action).processes|
           && LaunchWrites(Take(s, action).processes[q], w)
    ensures StartIsWriting(s, w) && LaunchIsWriting(s, w)
  {
    hide NextOrdinal, Numbers, RacedIsPast;
  }

  /** A run gives some number of `w` twice if and only if at some point of it the start and a launch of `w` have
      both numbered a job and neither has written it. */
  lemma NumbersRepeatIffWritersMeet(actions: seq<Action>, w: nat)
    ensures (exists n: nat, p: nat :: n <= |actions| && NumberClashes(actions[..n], w, p)) <==>
      exists n: nat :: n <= |actions| && WritersMeet(actions[..n], w)
  {
    hide Execute, Past, Clashes;
    forall n: nat, p: nat | n <= |actions| && NumberClashes(actions[..n], w, p)
      ensures exists m: nat :: m <= |actions| && WritersMeet(actions[..m], w)
    {
      ClashIsMeeting(actions[..n], w, p);
      var m: nat :| m <= n && WritersMeet(actions[..n][..m], w);
      assert actions[..n][..m] == actions[..m];
    }
    forall n: nat | n <= |actions| && WritersMeet(actions[..n], w)
      ensures exists m: nat, p: nat :: m <= |actions| && NumberClashes(actions[..m], w, p)
    {
      var s := Execute(actions[..n]);
      var p: nat :| p < |s.processes| && StartWrites(s.processes[p], w);
      ClashesIff(actions[..n], p);
      assert NumberClashes(actions[..n], w, p);
    }
  }

  lemma ClashIsMeeting(actions: seq<Action>, w: nat, p: nat)
    requires NumberClashes(actions, w, p)
    ensures exists n: nat :: n <= |actions| && WritersMeet(actions[..n], w)
  {
    ClashesIff(actions, p);
    var s, h := Execute(actions), Past(actions);
    hide Execute, Past, Clashes;
    if w in h.raced || (!s.processes[p].starting && p in h.passed) {
      assert p in h.passed && !s.processes[p].starting ==> LaunchWrites(s.processes[p], w);
      HistoryMeans(actions, w);
    } else {
      assert s.processes[p].starting ==> StartWrites(s.processes[p], w);
      assert !s.processes[p].starting ==> LaunchWrites(s.processes[p], w);
      assert actions[..|actions|] == actions;
      assert WritersMeet(actions[..|actions|], w);
    }
  }

  // ----- no gaps

  /** The numbers given so far are 1, 2, 3 and so on. */
  predicate NoGaps(numbers: set<nat>) {
    forall o :: o in numbers ==> o == 1 || (o > 1 && o - 1 in numbers)
  }

  lemma NextHasNoGap(numbers: set<nat>)
    requires NoGaps(numbers)
    ensures NoGaps(numbers + {NextOrdinal(numbers)})
  {
  }

  lemma {:induction false} JobNumbersHaveNoGaps(actions: seq<Action>, w: nat)
    requires w < |Execute(actions).workflows|
    ensures NoGaps(Execute(actions).workflows[w].jobs.Keys)
  {
    if actions != [] {
      var before, last := actions[..|actions| - 1], actions[|actions| - 1];
      if w < |Execute(before).workflows| {
        JobNumbersHaveNoGaps(before, w);
      }
      RunTracks(before);
      hide Execute;
      GapsStep(Execute(before), Past(before), last, w);
    }
  }

  lemma GapsStep(s: System, h: History, action: Action, w: nat)
    requires Tracks(s, h) && w < |Take(s, action).workflows|
    requires w < |s.workflows| ==> NoGaps(s.workflows[w].jobs.Keys)
    ensures NoGaps(Take(s, action).workflows[w].jobs.Keys)
  {
    hide NextOrdinal, RacedIsPast, PassedIsPast, LockTaken, RegistryTaken;
    match action {
      case Advance(i) =>
        if i < |s.processes| && s.processes[i].Writing? && s.processes[i].w == w {
          assert HasNumber(s, h, i);
          var jobs := s.workflows[w].jobs;
          NextHasNoGap(jobs.Keys);
          assert jobs[s.processes[i].ordinal := s.processes[i].job].Keys == jobs.Keys + {s.processes[i].ordinal};
        }
      case _ =>
    }
  }

  // ----- runs that give a number twice

  lemma StartUpToNumbering() returns (actions: seq<Action>)
    ensures Execute(actions) == System([Workflow(true, map[], false, false)], [Numbering(0, Start, true)])
  {
    actions := Then([], Command(Preflighted));
    actions := Then(actions, Advance(0));
    assert Execute(actions) == System([], [Scanning([])]);
    actions := Then(actions, Advance(0));
    assert Execute(actions) == System([], [Creating]);
    actions := Then(actions, Advance(0));
    assert Execute(actions) == System([Workflow(false, map[], false, false)], [Requesting(0)]);
    actions := Then(actions, Advance(0));
  }

  /** A resume begun now takes its own number before anybody writes one. */
  lemma ResumeUpToWriting(before: seq<Action>, p: Process) returns (actions: seq<Action>)
    requires Execute(before) == System([Workflow(true, map[], false, false)], [p])
    requires LockOf(p).None?
    ensures Execute(actions) == System([Workflow(true, map[], false, false)], [p, Writing(0, Resume, 1, false)])
  {
    hide RegistryTaken, LockTaken, Execute, Then;
    actions := Then(before, Command(Launching(0, Resume)));
    assert Execute(actions).processes == [p, Launching(0, Resume)];
    assert !LockTaken(Execute(actions), 0) by {
      Unheld(Execute(actions), 0);
    }
    actions := Then(actions, Advance(1));
    assert Execute(actions).processes == [p, Checking(0, Resume)];
    actions := Then(actions, Advance(1));
    assert Execute(actions).processes == [p, Numbering(0, Resume, false)];
    assert Execute(actions).workflows[0].jobs.Keys == {};
    actions := Then(actions, Advance(1));
  }

  /** The start and a resume can hold one number at once. */
  lemma JobNumbersCollide() returns (actions: seq<Action>)
    ensures Execute(actions) ==
      System([Workflow(true, map[], false, false)], [Writing(0, Start, 1, true), Writing(0, Resume, 1, false)])
  {
    hide RegistryTaken, LockTaken, Execute, Then;
    actions := StartUpToNumbering();
    assert Execute(actions).workflows[0].jobs.Keys == {};
    actions := Then(actions, Advance(0));
    actions := ResumeUpToWriting(actions, Writing(0, Start, 1, true));
  }

  /** It is enough that the resume numbers first and has not written when the start numbers. */
  lemma ResumeCanNumberFirst() returns (actions: seq<Action>)
    ensures Execute(actions) ==
      System([Workflow(true, map[], false, false)], [Writing(0, Start, 1, true), Writing(0, Resume, 1, false)])
    ensures Execute(actions[..|actions| - 1]).processes == [Numbering(0, Start, true), Writing(0, Resume, 1, false)]
  {
    hide RegistryTaken, LockTaken, Execute;
    actions := StartUpToNumbering();
    actions := ResumeUpToWriting(actions, Numbering(0, Start, true));
    assert Execute(actions).workflows[0].jobs.Keys == {};
    var before := actions;
    actions := Then(actions, Advance(0));
    assert actions[..|actions| - 1] == before;
  }

  /** A start alone at its write can overwrite the job file of a worker that is already running that job. */
  lemma StartOverwritesRunningJob() returns (actions: seq<Action>)
    ensures Execute(actions) == System([Workflow(true, map[1 := Resume], false, false)],
                                       [Writing(0, Start, 1, true), Gone, Running(0, Resume)])
    ensures Execute(Then(actions, Advance(0))).workflows[0].jobs == map[1 := Start]
  {
    hide RegistryTaken, LockTaken, Execute, Then;
    actions := JobNumbersCollide();
    actions := Then(actions, Advance(1));
    assert Execute(actions).processes == [Writing(0, Start, 1, true), Spawning(0, 1, false)];
    actions := Then(actions, Advance(1));
    assert Execute(actions).processes == [Writing(0, Start, 1, true), Releasing(0, 2, false), Worker(0, 1)];
    actions := Then(actions, Advance(1));
    assert Execute(actions).processes == [Writing(0, Start, 1, true), Gone, Worker(0, 1)];
    actions := Then(actions, Advance(2));
  }

  /** A launch that dies before its write leaves the start's number free. */
  lemma DeadLaunchClashesWithNothing() returns (actions: seq<Action>)
    ensures Execute(actions) == System([Workflow(true, map[], false, false)], [Writing(0, Start, 1, true), Gone])
    ensures !Clashes(Execute(actions), 0)
    ensures Execute(actions[..|actions| - 1]).processes == [Writing(0, Start, 1, true), Writing(0, Resume, 1, false)]
  {
    hide Execute;
    actions := JobNumbersCollide();
    var before := actions;
    actions := Then(actions, Die(1));
    assert actions[..|actions| - 1] == before;
  }
}
