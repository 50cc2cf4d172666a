/** `kernel_contract.KernelSession`: identities, deadlines, restarts and restored state over one kernel at a time. */
module KernelSession {
  import opened Text
  import opened KernelWire

  datatype Failure =
    | ContractError
    | TimedOut                        // `TimeoutError`, raised to the caller
    | Refused(code: string, message: string)  // `_KernelResponseError`
    | NoKernel                        // `execute` on a session whose restart failed

  datatype Answer<+T> = Ok(value: T) | Failed(failure: Failure)

  datatype Execution = Execution(status: string, repr: Option<string>, stdout: string, stderr: string,
      error: Option<string>)

  /** The requests a restarted kernel has been given: the boot, the snapshot when policy restores it, the workspace. */
  function FreshBodies(bootstrap: string, restores: bool, snapshot: Option<Snapshot>,
      workspace: Option<(seq<File>, Policy)>): seq<Body> {
    [Boot(bootstrap, restores)]
    + (if snapshot.Some? && restores then [RestoreSnapshot(snapshot.value)] else [])
    + (if workspace.Some? then [WorkspaceInit(workspace.value.0, workspace.value.1)] else [])
  }

  predicate Ascending(ids: seq<nat>) {
    forall i, j :: 0 <= i < j < |ids| ==> ids[i] < ids[j]
  }

  /** The two reports `execute` makes up itself. */
  const DEADLINE_EXPIRED := Execution("timeout", None, "", "", Some("execution deadline expired"))
  const GRACE_EXPIRED := Execution("interrupted", None, "", "", Some("interrupt grace expired"))

  /** An answer that came after the interrupt, as it is reported: status and value are dropped. */
  function Interrupted(e: Execution): Execution {
    Execution("interrupted", None, e.stdout, e.stderr, e.error)
  }

  /** What an execution must show of what the kernel said to it: a result's value and both streams in their places, or
      an error's message, called an interruption exactly for that code. Anything else shows nothing. */
  ghost predicate Shows(saying: Saying, e: Execution) {
    match saying
    case Result(value) =>
      && value.ExecutionValue? && e.status == "ok"
      && e.repr == value.repr && e.stdout == value.stdout && e.stderr == value.stderr && e.error == None
    case Error(code, message) =>
      && (code == "interrupted" ==> e.status == "interrupted") && (code != "interrupted" ==> e.status == "error")
      && e.repr == None && e.stdout == "" && e.stderr == "" && e.error == Some(message)
    case Garbage => false
  }

  predicate Readable(saying: Saying) {
    saying.Error? || (saying.Result? && saying.value.ExecutionValue?)
  }

  /** After an interrupt the streams and the error are shown, the status is "interrupted", and the value is dropped. */
  ghost predicate ShowsInterrupted(saying: Saying, e: Execution) {
    && e.status == "interrupted" && e.repr == None
    && match saying
       case Result(value) =>
         value.ExecutionValue? && e.stdout == value.stdout && e.stderr == value.stderr && e.error == None
       case Error(_, message) => e.stdout == "" && e.stderr == "" && e.error == Some(message)
       case Garbage => false
  }

  /** Identities ascend, so a line that answers the last request leaves nothing owed. */
  lemma LastAnswered(asked: seq<Message>, at: nat, id: nat)
    requires forall i, j :: 0 <= i < j < |asked| ==> asked[i].id < asked[j].id
    requires at < |asked| && asked[at].id == id == asked[|asked| - 1].id
    ensures at + 1 == |asked| && asked[..at + 1] == asked
  {
  }

  const NUL: char := '\0'

  /** The only boot answer that is accepted: nothing was written. */
  const QUIET_BOOT: Saying := Result(BootValue("", ""))

  class Session {
    const bootstrap: string
    const restores: bool              // `restore_after_restart`
    var nextId: nat
    var wire: Wire?
    var observing: bool
    var observations: nat             // how many observations are recorded
    var latestSnapshot: Option<Snapshot>
    var workspacePolicy: Option<Policy>
    var latestFiles: Option<seq<File>>
    var closed: bool
    ghost var started: nat            // kernels started
    ghost var issued: seq<nat>        // identities put on requests, over all kernels

    ghost predicate Valid()
      reads this, wire
    {
      && Ascending(issued)
      && (forall k :: 0 <= k < |issued| ==> issued[k] < nextId)
      && started == observations + (if observing then 1 else 0)
      && (wire != null <==> observing)
      && (closed ==> wire == null)
      && (latestFiles.Some? <==> workspacePolicy.Some?)
      && (wire != null ==>
            && wire.Valid()
            && (forall i, j :: 0 <= i < j < |wire.asked| ==> wire.asked[i].id < wire.asked[j].id)
            && (forall k :: 0 <= k < |wire.asked| ==> wire.asked[k].id < nextId))
    }

    ghost function Workspace(): Option<(seq<File>, Policy)>
      reads this
    {
      if workspacePolicy.Some? && latestFiles.Some? then Some((latestFiles.value, workspacePolicy.value)) else None
    }

    /** The live kernel has been given nothing but what a restart gives it, and has answered all of it. */
    ghost predicate IsFresh()
      reads this, wire
    {
      && wire != null && wire.Valid() && wire.Behind() == 0
      && Bodies(wire.asked) == FreshBodies(bootstrap, restores, latestSnapshot, Workspace())
      && wire.kernel([Boot(bootstrap, restores)]) == QUIET_BOOT
    }

    twostate predicate SameMemory()
      reads this
    {
      && latestSnapshot == old(latestSnapshot)
      && workspacePolicy == old(workspacePolicy)
      && latestFiles == old(latestFiles)
      && closed == old(closed)
    }

    /** How many answers the kernel still owes. */
    ghost function Owed(): nat
      reads this, wire
      requires Valid()
    {
      if wire == null then 0 else wire.Behind()
    }

    /** What the caller of request `id` is told of what was received, None when the request could not be written. */
    static function Reply(received: Option<Received>, id: nat): Answer<Value>
    {
      match received
      case Some(Late) => Failed(TimedOut)
      case Some(Line(answered, Result(value))) => if answered == id then Ok(value) else Failed(ContractError)
      case Some(Line(answered, Error(code, message))) =>
        if answered == id then Failed(Refused(code, message)) else Failed(ContractError)
      case _ => Failed(ContractError)
    }

    /** The next identity is put on one request. */
    method Send(body: Body) returns (written: bool)
      requires Valid() && wire != null
      modifies this`nextId, this`issued, wire`asked
      ensures Valid() && nextId == old(nextId) + 1
      ensures wire.asked == old(wire.asked) + (if written then [Message(old(nextId), body)] else [])
    {
      issued := issued + [nextId];
      nextId := nextId + 1;
      written := wire.Write(Message(nextId - 1, body));
    }

    /** `_request`. An answer is the kernel's own answer to this request, asked of a kernel that owed nothing.
        A kernel that still owes an answer never gets another one accepted, and goes on owing one; a time-out
        leaves one more owed. */
    method Request(body: Body) returns (r: Answer<Value>, ghost received: Option<Received>)
      requires Valid()
      modifies this`nextId, this`issued, wire
      ensures Valid()
      ensures r == Reply(received, old(nextId))
      ensures received.Some? ==> wire != null && wire.asked == old(wire.asked) + [Message(old(nextId), body)]
      ensures received.None? && wire != null ==> wire.asked == old(wire.asked)
      ensures received.Some? && received.value.Line? ==>
        && wire.taken == old(wire.taken) + 1 && old(wire.taken) < |wire.asked|
        && received.value == Line(wire.asked[old(wire.taken)].id, wire.kernel(Bodies(wire.asked[..wire.taken])))
      ensures wire != null && !(received.Some? && received.value.Line?) ==> wire.taken == old(wire.taken)
      ensures r.Failed? && r.failure.TimedOut? ==> wire != null && wire.Behind() == old(Owed()) + 1
      ensures r.Ok? || (r.Failed? && r.failure.Refused?) ==>
        && wire != null && old(wire.Valid() && wire.Behind() == 0) && wire.Behind() == 0
        && wire.asked == old(wire.asked) + [Message(old(nextId), body)]
        && wire.kernel(Bodies(wire.asked)) ==
             (if r.Ok? then Result(r.value) else Error(r.failure.code, r.failure.message))
      ensures old(Owed()) > 0 ==> wire != null && r.Failed? && !r.failure.Refused? && wire.Behind() >= old(Owed())
      ensures !(r.Failed? && r.failure.NoKernel?)
      ensures nextId == old(nextId) + (if wire != null then 1 else 0)
    {
      if wire == null {
        return Failed(ContractError), None;
      }
      var id := nextId;
      var written := Send(body);
      if !written {
        return Failed(ContractError), None;
      }
      var line := wire.Receive();
      received := Some(line);
      match line {
        case Late => return Failed(TimedOut), received;
        case Exited => return Failed(ContractError), received;
        case Line(answered, saying) =>
          if saying.Garbage? || answered != id {
            return Failed(ContractError), received;
          }
          assert wire.asked[|wire.asked| - 1].id == id;
          assert wire.taken == |wire.asked|;
          assert wire.asked[..wire.taken] == wire.asked;
          match saying {
            case Result(value) => return Ok(value), received;
            case Error(code, message) => return Failed(Refused(code, message)), received;
          }
      }
    }

    /** `_stop_wire`: kill the kernel, keep its observation. */
    method StopWire()
      requires Valid()
      modifies this`wire, this`observing, this`observations
      ensures Valid() && wire == null
      ensures observations == old(observations) + (if old(observing) then 1 else 0)
    {
      wire := null;
      if observing {
        observations := observations + 1;
      }
      observing := false;
    }

    static function Outcome(given: Answer<Value>): Option<Failure> {
      match given
      case Ok(_) => None
      case Failed(failure) => Some(failure)
    }

    /** A value of the wrong kind breaks the contract. */
    static function Expecting(given: Answer<Value>, fits: Value -> bool): Answer<Value> {
      if given.Ok? && !fits(given.value) then Failed(ContractError) else given
    }

    /** The answer to a workspace that was accepted whole. */
    static predicate CountsAll(value: Value, files: seq<File>)
    {
      value.WorkspaceValue? && value.fileCount == |files| && value.totalBytes >= 0 && value.digestLength == 64
    }

    /** `_initialize_workspace_request` */
    method WorkspaceRequest(files: seq<File>, policy: Policy)
      returns (r: Answer<Value>, ghost received: Option<Received>)
      requires Valid()
      modifies this`nextId, this`issued, wire
      ensures Valid()
      ensures r.Ok? ==>
        && wire != null && old(wire.Valid() && wire.Behind() == 0) && wire.Behind() == 0
        && Bodies(wire.asked) == old(Bodies(wire.asked)) + [WorkspaceInit(files, policy)]
        && wire.kernel(Bodies(wire.asked)) == Result(r.value) && CountsAll(r.value, files)
      ensures r == Expecting(Reply(received, old(nextId)), (value: Value) => CountsAll(value, files))
      ensures !(r.Failed? && r.failure.NoKernel?)
    {
      r, received := Request(WorkspaceInit(files, policy));
      if r.Failed? {
        return;
      }
      if !r.value.WorkspaceValue? || r.value.fileCount != |files| || r.value.totalBytes < 0
        || r.value.digestLength != 64 {
        return Failed(ContractError), received;
      }
    }

    /** The snapshot a restart gives back, when policy restores it. */
    method GiveSnapshot() returns (failure: Option<Failure>, ghost received: Option<Received>)
      requires Valid() && wire != null && wire.Behind() == 0
      modifies this`nextId, this`issued, wire
      ensures Valid()
      ensures failure.None? ==>
        && wire.Behind() == 0
        && Bodies(wire.asked) == old(Bodies(wire.asked))
             + (if latestSnapshot.Some? && restores then [RestoreSnapshot(latestSnapshot.value)] else [])
      ensures failure == if latestSnapshot.Some? && restores then Outcome(Reply(received, old(nextId))) else None
      ensures failure.Some? ==> !failure.value.NoKernel?
    {
      hide Reply, Ascending;
      received := None;
      if latestSnapshot.Some? && restores {
        var restored;
        restored, received := Request(RestoreSnapshot(latestSnapshot.value));
        if restored.Failed? {
          return Some(restored.failure), received;
        }
        assert Bodies(wire.asked) == old(Bodies(wire.asked)) + [RestoreSnapshot(latestSnapshot.value)];
      }
      return None, received;
    }

    /** The workspace a restart gives back. */
    method GiveWorkspace() returns (failure: Option<Failure>, ghost received: Option<Received>)
      requires Valid() && wire != null && wire.Behind() == 0
      modifies this`nextId, this`issued, wire
      ensures Valid()
      ensures failure.None? ==>
        && wire.Behind() == 0
        && Bodies(wire.asked) == old(Bodies(wire.asked))
             + (if Workspace().Some? then [WorkspaceInit(Workspace().value.0, Workspace().value.1)] else [])
      ensures Workspace().None? ==> failure == None
      ensures Workspace().Some? ==>
        var files := latestFiles.value;
        failure == Outcome(Expecting(Reply(received, old(nextId)), (value: Value) => CountsAll(value, files)))
      ensures failure.Some? ==> !failure.value.NoKernel?
    {
      hide Reply, CountsAll, Ascending;
      received := None;
      if workspacePolicy.Some? && latestFiles.Some? {
        var initialized;
        initialized, received := WorkspaceRequest(latestFiles.value, workspacePolicy.value);
        if initialized.Failed? {
          return Some(initialized.failure), received;
        }
      }
      return None, received;
    }

    /** The first request of a new kernel; a kernel that is not accepted is stopped. */
    method BootKernel() returns (failure: Option<Failure>, ghost received: Option<Received>)
      requires Valid() && wire != null && wire.asked == [] && wire.Behind() == 0
      modifies this`nextId, this`issued, this`wire, this`observing, this`observations, wire
      ensures Valid()
      ensures failure.None? ==>
        && wire == old(wire) && wire.Behind() == 0 && Bodies(wire.asked) == [Boot(bootstrap, restores)]
        && wire.kernel(Bodies(wire.asked)) == QUIET_BOOT
      ensures failure ==
        Outcome(Expecting(Reply(received, old(nextId)), (value: Value) => Result(value) == QUIET_BOOT))
      ensures failure.Some? ==> wire == null && !failure.value.NoKernel?
    {
      hide Reply, Ascending;
      var booted;
      booted, received := Request(Boot(bootstrap, restores));
      if booted.Failed? || !booted.value.BootValue? || booted.value.stdout != "" || booted.value.stderr != "" {
        StopWire();
        return Some(if booted.Failed? then booted.failure else ContractError), received;
      }
      return None, received;
    }

    /** `_start`: a new kernel is booted and given the remembered state, or there is no kernel. */
    method Start() returns (failure: Option<Failure>)
      requires Valid() && wire == null && !closed
      modifies this`nextId, this`issued, this`wire, this`observing, this`observations, this`started
      ensures Valid()
      ensures failure.None? ==> fresh(wire) && IsFresh()
      ensures failure.Some? ==> wire == null && !failure.value.NoKernel?
      ensures started <= old(started) + 1
    {
      hide Ascending;
      var launched: bool := *;
      if !launched {
        return Some(ContractError);
      }
      var kernel: Kernel := *;
      wire := new Wire(kernel);
      observing := true;
      started := started + 1;
      ghost var received;
      failure, received := BootKernel();
      if failure.Some? {
        return;
      }
      failure, received := GiveSnapshot();
      if failure.None? {
        failure, received := GiveWorkspace();
      }
      if failure.Some? {
        StopWire();
      }
    }

    /** `_restart` */
    method Restart() returns (failure: Option<Failure>)
      requires Valid() && !closed
      modifies this`nextId, this`issued, this`wire, this`observing, this`observations, this`started
      ensures Valid()
      ensures failure.None? ==> fresh(wire) && IsFresh()
      ensures failure.Some? ==> wire == null && !failure.value.NoKernel?
    {
      StopWire();
      failure := Start();
    }

    /** `_decode_execution_response`, of a line whose identity has been compared with the request's. */
    static function Decode(saying: Saying, same: bool): (r: Answer<Execution>)
      ensures r.Ok? <==> same && Readable(saying)
      ensures r.Ok? ==> Shows(saying, r.value) && ShowsInterrupted(saying, Interrupted(r.value))
      ensures r.Failed? ==> r == Failed(ContractError)
    {
      if !same then Failed(ContractError)
      else match saying
        case Garbage => Failed(ContractError)
        case Error(code, message) =>
          Ok(Execution(if code == "interrupted" then "interrupted" else "error", None, "", "", Some(message)))
        case Result(ExecutionValue(repr, stdout, stderr)) => Ok(Execution("ok", repr, stdout, stderr, None))
        case Result(_) => Failed(ContractError)
    }

    /** What a caller is told after the deadline, if the session could be restarted: without an interrupt, that the
        deadline expired; with one, what came within the grace period. */
    static function Expired(interrupt: bool, grace: Option<Received>, id: nat): Answer<Execution>
    {
      if !interrupt then Ok(DEADLINE_EXPIRED)
      else match grace
        case None => Failed(ContractError)
        case Some(Line(answered, saying)) =>
          (match Decode(saying, answered == id)
           case Ok(e) => Ok(Interrupted(e))
           case Failed(failure) => Failed(failure))
        case Some(_) => Ok(GRACE_EXPIRED)
    }

    /** The deadline has passed on the last request `id`: interrupt if asked to, then restart. `grace` is what came
        within the grace period, None when no interrupt was delivered. */
    method Expire(id: nat, interrupt: bool) returns (r: Answer<Execution>, ghost grace: Option<Received>)
      requires Valid() && wire != null && wire.asked != [] && wire.asked[|wire.asked| - 1].id == id
      modifies this`nextId, this`issued, this`wire, this`observing, this`observations, this`started, wire
      ensures Valid()
      ensures r.Ok? ==> fresh(wire) && IsFresh() && r == Expired(interrupt, grace, id)
      ensures r.Failed? ==> r == Expired(interrupt, grace, id) || wire == null
      ensures grace.Some? && grace.value.Line? ==>
        && old(wire.taken) < |old(wire.asked)|
        && grace.value == Line(old(wire.asked)[old(wire.taken)].id,
                               old(wire).kernel(Bodies(old(wire.asked)[..old(wire.taken) + 1])))
      ensures r.Ok? && interrupt && r.value != GRACE_EXPIRED ==>
        && old(wire.Behind()) == 1
        && ShowsInterrupted(old(wire).kernel(Bodies(old(wire.asked))), r.value)
      ensures !(r.Failed? && r.failure.NoKernel?)
      ensures wire == null || wire == old(wire) || (fresh(wire) && IsFresh())
      ensures old(wire).asked == old(wire.asked)
    {
      hide Ascending;
      r, grace := Ok(DEADLINE_EXPIRED), None;
      if interrupt {
        var delivered: bool := *;
        if !delivered {
          return Failed(ContractError), None;
        }
        var received := wire.Receive();
        grace := Some(received);
        if received.Line? {
          var decoded := Decode(received.saying, received.id == id);
          if decoded.Failed? {
            return decoded, grace;
          }
          LastAnswered(wire.asked, old(wire.taken), id);
          r := Ok(Interrupted(decoded.value));
        } else {
          r := Ok(GRACE_EXPIRED);
        }
      }
      var failure := Restart();
      if failure.Some? {
        r := Failed(failure.value);
      }
    }

    /** `execute`. `late` says that the deadline passed and `grace` what came after an interrupt. Before the deadline,
        what returns is the kernel's answer to this code. After it, whatever returns leaves a fresh kernel, and is
        one of the two fixed reports or shows the output of the old kernel's answer to this very code. */
    method Execute(code: string, interrupt: bool)
      returns (r: Answer<Execution>, ghost received: Option<Received>, ghost late: bool, ghost grace: Option<Received>)
      requires Valid()
      modifies this`nextId, this`issued, this`wire, this`observing, this`observations, this`started, wire
      ensures Valid()
      ensures r.Ok? || late ==>
        old(wire) != null && old(wire).asked == old(wire.asked) + [Message(old(nextId), Run(code))]
      ensures r.Ok? && !late ==>
        && wire == old(wire) && old(wire.Behind()) == 0 && wire.Behind() == 0
        && Shows(wire.kernel(Bodies(wire.asked)), r.value)
      ensures r.Failed? && !late ==> r.failure.ContractError? || r.failure.NoKernel?
      ensures late <==> received == Some(Late)
      ensures !late && received.Some? && received.value.Line? ==>
        && old(wire) != null && wire == old(wire) && old(wire.taken) < |wire.asked|
        && received.value == Line(wire.asked[old(wire.taken)].id,
             wire.kernel(Bodies(wire.asked[..old(wire.taken) + 1])))
        && (r.Ok? <==> received.value.id == old(nextId) && Readable(received.value.saying))
      ensures !late && !(received.Some? && received.value.Line?) ==> r.Failed?
      ensures r.Ok? && late ==> fresh(wire) && IsFresh() && r == Expired(interrupt, grace, old(nextId))
      ensures r.Failed? && late ==> r == Expired(interrupt, grace, old(nextId)) || wire == null
      ensures r.Ok? && late && r.value != DEADLINE_EXPIRED && r.value != GRACE_EXPIRED ==>
        && interrupt && old(Owed()) == 0
        && ShowsInterrupted(old(wire).kernel(old(Bodies(wire.asked)) + [Run(code)]), r.value)
      ensures r.Ok? && late ==> r.value.status == (if interrupt then "interrupted" else "timeout")
      ensures r.Failed? && r.failure.NoKernel? <==> !old(closed) && old(wire) == null
      ensures wire == null || wire == old(wire) || (fresh(wire) && IsFresh())
      ensures !late && !old(closed) ==> nextId == old(nextId) + 1
    {
      hide Ascending, Decode, Shows, Readable, Reply, FreshBodies;
      received, late, grace := None, false, None;
      if closed {
        return Failed(ContractError), received, late, grace;
      }
      var id := nextId;
      if wire == null {
        nextId := id + 1;
        return Failed(NoKernel), received, late, grace;
      }
      var written := Send(Run(code));
      if !written {
        return Failed(ContractError), received, late, grace;
      }
      assert Bodies(wire.asked) == old(Bodies(wire.asked)) + [Run(code)];
      var line := wire.Receive();
      received := Some(line);
      match line {
        case Exited => return Failed(ContractError), received, late, grace;
        case Line(answered, saying) =>
          if answered == id {
            LastAnswered(wire.asked, old(wire.taken), id);
          }
          return Decode(saying, answered == id), received, late, grace;
        case Late =>
          late := true;
          r, grace := Expire(id, interrupt);
      }
    }

    /** `snapshot` */
    method Snapshot() returns (r: Answer<string>, ghost received: Option<Received>)
      requires Valid()
      modifies this`nextId, this`issued, this`latestSnapshot, wire
      ensures Valid()
      ensures latestSnapshot == if r.Ok? then Some(r.value) else old(latestSnapshot)
      ensures match Expecting(Reply(received, old(nextId)), (value: Value) => value.SnapshotValue?)
        case Ok(value) => r == Ok(value.snapshot)
        case Failed(failure) => r == Failed(failure)
      ensures r.Ok? ==>
        && wire != null && Bodies(wire.asked) == old(if wire != null then Bodies(wire.asked) else []) + [TakeSnapshot]
        && wire.kernel(Bodies(wire.asked)) == Result(SnapshotValue(r.value))
    {
      var answer;
      answer, received := Request(TakeSnapshot);
      if answer.Failed? {
        return Failed(answer.failure), received;
      }
      if !answer.value.SnapshotValue? {
        return Failed(ContractError), received;
      }
      latestSnapshot := Some(answer.value.snapshot);
      return Ok(answer.value.snapshot), received;
    }

    /** `restore` */
    method Restore(snapshot: string) returns (failure: Option<Failure>, ghost received: Option<Received>)
      requires Valid()
      modifies this`nextId, this`issued, this`latestSnapshot, wire
      ensures Valid()
      ensures latestSnapshot == if failure.None? then Some(snapshot) else old(latestSnapshot)
      ensures failure == Outcome(Reply(received, old(nextId)))
      ensures failure.None? ==>
        && wire != null && old(Owed()) == 0 && wire.Behind() == 0
        && Bodies(wire.asked) == old(if wire != null then Bodies(wire.asked) else []) + [RestoreSnapshot(snapshot)]
        && wire.kernel(Bodies(wire.asked)).Result?
    {
      var answer;
      answer, received := Request(RestoreSnapshot(snapshot));
      if answer.Failed? {
        return Some(answer.failure), received;
      }
      latestSnapshot := Some(snapshot);
      return None, received;
    }

    /** `initialize_workspace`; a request that `normalize_policy` or `decode_files` rejects arrives as `None`. */
    method InitializeWorkspace(request: Option<(seq<File>, Policy)>)
      returns (r: Answer<Value>, ghost received: Option<Received>)
      requires Valid()
      modifies this`nextId, this`issued, this`workspacePolicy, this`latestFiles, wire
      ensures Valid()
      ensures r == if closed || request.None? then Failed(ContractError)
        else Expecting(Reply(received, old(nextId)), (value: Value) => CountsAll(value, request.value.0))
      ensures r.Ok? ==> Workspace() == request
      ensures r.Ok? ==>
        && wire != null && old(Owed()) == 0 && wire.Behind() == 0
        && Bodies(wire.asked) == old(if wire != null then Bodies(wire.asked) else [])
             + [WorkspaceInit(request.value.0, request.value.1)]
        && wire.kernel(Bodies(wire.asked)) == Result(r.value)
        && CountsAll(r.value, request.value.0)
      ensures r.Failed? ==> workspacePolicy == old(workspacePolicy) && latestFiles == old(latestFiles)
    {
      if closed || request.None? {
        return Failed(ContractError), None;
      }
      r, received := WorkspaceRequest(request.value.0, request.value.1);
      if r.Ok? {
        workspacePolicy := Some(request.value.1);
        latestFiles := Some(request.value.0);
      }
    }

    /** `export_workspace`: the exported files become the ones a restart brings back. */
    method ExportWorkspace() returns (r: Answer<seq<File>>, ghost received: Option<Received>)
      requires Valid()
      modifies this`nextId, this`issued, this`latestFiles, wire
      ensures Valid()
      ensures latestFiles == if r.Ok? then Some(r.value) else old(latestFiles)
      ensures workspacePolicy.None? ==> r == Failed(ContractError)
      ensures workspacePolicy.Some? ==>
        match Expecting(Reply(received, old(nextId)), (value: Value) => value.ExportValue? && value.files.Some?)
        case Ok(value) => r == Ok(value.files.value)
        case Failed(failure) => r == Failed(failure)
      ensures r.Ok? ==>
        && workspacePolicy.Some? && wire != null && old(Owed()) == 0 && wire.Behind() == 0
        && Bodies(wire.asked) == old(if wire != null then Bodies(wire.asked) else []) + [WorkspaceExport]
        && wire.kernel(Bodies(wire.asked)) == Result(ExportValue(Some(r.value)))
    {
      if workspacePolicy.None? {
        return Failed(ContractError), None;
      }
      var answer;
      answer, received := Request(WorkspaceExport);
      if answer.Failed? {
        return Failed(answer.failure), received;
      }
      if !answer.value.ExportValue? || answer.value.files.None? {
        return Failed(ContractError), received;
      }
      latestFiles := answer.value.files;
      return Ok(answer.value.files.value), received;
    }

    /** `run_workspace_command` */
    method RunWorkspaceCommand(argv: seq<string>, timeoutMs: int)
      returns (r: Answer<Value>, ghost received: Option<Received>)
      requires Valid()
      modifies this`nextId, this`issued, wire
      ensures Valid()
      ensures
        if && workspacePolicy.Some?
           && argv != [] && (forall k :: 0 <= k < |argv| ==> argv[k] != "" && NUL !in argv[k])
           && 1 <= timeoutMs <= workspacePolicy.value.commandTimeoutMs
        then r == Expecting(Reply(received, old(nextId)), (value: Value) => value.CommandValue?)
        else r == Failed(ContractError)
      ensures r.Ok? ==>
        && wire != null && wire.kernel(Bodies(wire.asked)) == Result(r.value)
        && Bodies(wire.asked) == old(if wire != null then Bodies(wire.asked) else []) + [WorkspaceRun(argv, timeoutMs)]
    {
      if workspacePolicy.None? {
        return Failed(ContractError), None;
      }
      if argv == [] || (exists k :: 0 <= k < |argv| && (argv[k] == "" || NUL in argv[k]))
        || !(1 <= timeoutMs <= workspacePolicy.value.commandTimeoutMs) {
        return Failed(ContractError), None;
      }
      r, received := Request(WorkspaceRun(argv, timeoutMs));
      if r.Ok? && !r.value.CommandValue? {
        return Failed(ContractError), received;
      }
    }

    /** `cleanup`: on success nothing is left to restore. */
    method CleanUp() returns (failure: Option<Failure>, ghost received: Option<Received>)
      requires Valid()
      modifies this`nextId, this`issued, this`latestSnapshot, this`workspacePolicy, this`latestFiles, wire
      ensures Valid()
      ensures failure.None? ==>
        FreshBodies(bootstrap, restores, latestSnapshot, Workspace()) == [Boot(bootstrap, restores)]
      ensures failure.None? ==>
        && wire != null && old(Owed()) == 0 && wire.Behind() == 0
        && Bodies(wire.asked) == old(if wire != null then Bodies(wire.asked) else []) + [Cleanup]
        && wire.kernel(Bodies(wire.asked)).Result?
      ensures failure.Some? ==> SameMemory()
      ensures failure == Outcome(Reply(received, old(nextId)))
    {
      var answer;
      answer, received := Request(Cleanup);
      if answer.Failed? {
        return Some(answer.failure), received;
      }
      latestSnapshot := None;
      workspacePolicy := None;
      latestFiles := None;
      return None, received;
    }

    /** `close`: every kernel ever started has left exactly one observation. It is clean when there was no kernel, or
        the kernel, owing nothing, answered the shutdown with a result and then exited with status zero. */
    method Close(exitsZero: bool) returns (count: nat, clean: bool, ghost received: Option<Received>)
      requires Valid()
      modifies this`nextId, this`issued, this`wire, this`observing, this`observations, this`closed, wire
      ensures Valid() && closed && wire == null
      ensures count == observations == started
      ensures old(closed) ==> count == old(observations)
      ensures clean <==> old(wire) == null || (exitsZero && Reply(received, old(nextId)).Ok?)
      ensures old(wire) != null && Reply(received, old(nextId)).Ok? ==>
        && old(Owed()) == 0
        && old(wire).asked == old(wire.asked) + [Message(old(nextId), Shutdown)]
        && old(wire).kernel(old(Bodies(wire.asked)) + [Shutdown]).Result?
    {
      clean, received := true, None;
      if closed {
        return observations, true, None;
      }
      if wire != null {
        var answer;
        answer, received := Request(Shutdown);
        assert answer.Ok? ==> Bodies(wire.asked) == old(Bodies(wire.asked)) + [Shutdown];
        clean := answer.Ok? && exitsZero;
      }
      StopWire();
      closed := true;
      count := observations;
    }

    /** A session before `_start`. */
    constructor (bootstrap: string, restores: bool)
      ensures Valid() && wire == null && !closed && started == 0
      ensures this.bootstrap == bootstrap && this.restores == restores
      ensures latestSnapshot == None && Workspace() == None && nextId == 1
    {
      this.bootstrap := bootstrap;
      this.restores := restores;
      nextId := 1;
      wire := null;
      observing := false;
      observations := 0;
      latestSnapshot, workspacePolicy, latestFiles := None, None, None;
      closed := false;
      started := 0;
      issued := [];
    }
  }

  /** `__init__`: the first kernel is booted before anybody holds the session. */
  method Open(bootstrap: string, restores: bool) returns (session: Session?)
    ensures session != null ==> fresh(session) && session.Valid() && session.IsFresh() && session.started == 1
    ensures session != null ==> Bodies(session.wire.asked) == [Boot(bootstrap, restores)]
  {
    var made := new Session(bootstrap, restores);
    var failure := made.Start();
    session := if failure.None? then made else null;
  }
}
