/** The wire below `kernel_contract.KernelSession`: one kernel process that answers its requests in order. */
module KernelWire {
  import opened Text

  datatype File = File(path: string, content: string, executable: bool)

  datatype Policy = Policy(maxFiles: nat, maxBytes: nat, commandTimeoutMs: nat)

  type Snapshot = string

  /** A request without its identity. */
  datatype Body =
    | Boot(bootstrap: string, restoreAfterRestart: bool)
    | Run(code: string)
    | TakeSnapshot
    | RestoreSnapshot(snapshot: Snapshot)
    | WorkspaceInit(files: seq<File>, policy: Policy)
    | WorkspaceExport
    | WorkspaceRun(argv: seq<string>, timeoutMs: int)
    | Cleanup
    | Ping
    | Shutdown

  datatype Message = Message(id: nat, body: Body)

  /** A result by the exact key set it has; any other key set is `Malformed`. */
  datatype Value =
    | BootValue(stdout: string, stderr: string)
    | ExecutionValue(repr: Option<string>, stdout: string, stderr: string)
    | SnapshotValue(snapshot: Snapshot)
    | WorkspaceValue(fileCount: int, totalBytes: int, digestLength: nat)
    | ExportValue(files: Option<seq<File>>)
    | CommandValue(returncode: Option<int>, stdout: string, stderr: string, timedOut: bool)
    | PingValue(engine: string)
    | Malformed

  /** What a kernel says to one request; the wire adds the identity of the request being answered. */
  datatype Saying =
    | Garbage                                // not JSON, or the wrong keys or protocol
    | Result(value: Value)
    | Error(code: string, message: string)

  /** A kernel is deterministic: what it says depends on the requests it has been given. */
  type Kernel = seq<Body> -> Saying

  datatype Received = Late | Exited | Line(id: nat, saying: Saying)

  function Bodies(messages: seq<Message>): (bodies: seq<Body>)
    ensures |bodies| == |messages|
    ensures forall k :: 0 <= k < |messages| ==> bodies[k] == messages[k].body
  {
    seq(|messages|, k requires 0 <= k < |messages| => messages[k].body)
  }

  /** `_WireProcess`: requests written so far, and how many of its answers were taken from the queue. */
  class Wire {
    const kernel: Kernel
    var asked: seq<Message>
    var taken: nat

    ghost predicate Valid()
      reads this
    {
      taken <= |asked|
    }

    /** Requests whose answers are still to come. */
    ghost function Behind(): nat
      reads this
      requires Valid()
    {
      |asked| - taken
    }

    constructor (kernel: Kernel)
      ensures Valid() && this.kernel == kernel && asked == [] && taken == 0
    {
      this.kernel := kernel;
      asked := [];
      taken := 0;
    }

    /** `write`; a dead kernel refuses. */
    method Write(message: Message) returns (ok: bool)
      requires Valid()
      modifies this`asked
      ensures Valid()
      ensures asked == old(asked) + (if ok then [message] else [])
    {
      ok := *;
      if ok {
        asked := asked + [message];
      }
    }

    /** `receive`: the next line of the queue, unless it is late or the kernel is gone. */
    method Receive() returns (r: Received)
      requires Valid()
      modifies this`taken
      ensures Valid()
      ensures r.Line? ==>
        && old(taken) < |asked| && taken == old(taken) + 1
        && r == Line(asked[old(taken)].id, kernel(Bodies(asked[..old(taken) + 1])))
      ensures !r.Line? ==> taken == old(taken)
    {
      var late: bool := *;
      if late {
        return Late;
      }
      var exited: bool := *;
      if exited || taken == |asked| {
        return Exited;
      }
      taken := taken + 1;
      return Line(asked[taken - 1].id, kernel(Bodies(asked[..taken])));
    }
  }
}
