/** `bounded_process.communicate_bounded`: a select loop over three pipes that behaves like a pure
    function of the two output streams, whatever the chunks and their interleaving. */
module BoundedProcess {
  import opened Text
  import opened Newlines

  /** What the trusted line filter says about one line. */
  datatype Filtered = Kept(bytes: seq<Byte>) | Dropped | Refused

  type Filter = seq<Byte> -> Filtered

  datatype Verdict = Fits(kept: seq<Byte>, line: seq<Byte>) | TooLong | BadFilter

  const CHUNK := 65536

  // ----- what the whole stdout stream amounts to

  /** `retain_stdout_line`: the kept bytes after one more line. */
  function Retain(filter: Filter, cap: nat, kept: seq<Byte>, line: seq<Byte>): Verdict {
    if |line| > cap then TooLong
    else match filter(line)
      case Dropped => Fits(kept, [])
      case Refused => BadFilter
      case Kept(bytes) => if |kept| + |bytes| > cap then TooLong else Fits(kept + bytes, [])
  }

  /** The stream cut behind every newline. */
  function LinesOf(stream: seq<Byte>): seq<seq<Byte>>
    decreases |stream|
  {
    if stream == [] then [] else
      var at := Index(stream, NEWLINE, 0);
      if at.None? then [stream] else [stream[..at.value + 1]] + LinesOf(stream[at.value + 1..])
  }

  /** The specification: the filter applied line by line, every line and the kept total within the cap. */
  function FilterLines(filter: Filter, cap: nat, kept: seq<Byte>, lines: seq<seq<Byte>>): Verdict
    decreases |lines|
  {
    if lines == [] then Fits(kept, [])
    else
      var first := Retain(filter, cap, kept, lines[0]);
      if first.Fits? then FilterLines(filter, cap, first.kept, lines[1..]) else first
  }

  /** The `while True` loop of `consume_stdout` on a buffered line. */
  function Drain(filter: Filter, cap: nat, kept: seq<Byte>, line: seq<Byte>): (r: Verdict)
    ensures r.Fits? ==> |r.line| <= cap && NEWLINE !in r.line
    decreases |line|
  {
    var at := Index(line, NEWLINE, 0);
    if at.None? then if |line| > cap then TooLong else Fits(kept, line)
    else
      var first := Retain(filter, cap, kept, line[..at.value + 1]);
      if first.Fits? then Drain(filter, cap, first.kept, line[at.value + 1..]) else first
  }

  /** What is left to do at end of stream. */
  function Finish(filter: Filter, cap: nat, v: Verdict): Verdict {
    if v.Fits? && v.line != [] then Retain(filter, cap, v.kept, v.line) else v
  }

  lemma IndexPrefix(line: seq<Byte>, more: seq<Byte>)
    ensures Index(line, NEWLINE, 0).Some? ==> Index(line + more, NEWLINE, 0) == Index(line, NEWLINE, 0)
  {
    var at := Index(line, NEWLINE, 0);
    if at.Some? {
      IndexAt(line + more, NEWLINE, 0, at.value);
    }
  }

  /** Chunks do not matter: draining a longer buffer is draining the shorter one and then the rest. */
  lemma {:induction false} DrainChunks(filter: Filter, cap: nat, kept: seq<Byte>, line: seq<Byte>, more: seq<Byte>)
    ensures Drain(filter, cap, kept, line + more) ==
      var v := Drain(filter, cap, kept, line);
      if v.Fits? then Drain(filter, cap, v.kept, v.line + more) else v
    decreases |line|
  {
    hide Index;
    var at := Index(line, NEWLINE, 0);
    if at.Some? {
      IndexPrefix(line, more);
      assert (line + more)[..at.value + 1] == line[..at.value + 1];
      assert (line + more)[at.value + 1..] == line[at.value + 1..] + more;
      var first := Retain(filter, cap, kept, line[..at.value + 1]);
      if first.Fits? {
        DrainChunks(filter, cap, first.kept, line[at.value + 1..], more);
      }
    } else if |line| > cap {
      DrainLongLine(filter, cap, kept, line, more);
    }
  }

  /** Once a partial line is over the cap nothing that follows can save it. */
  lemma DrainLongLine(filter: Filter, cap: nat, kept: seq<Byte>, line: seq<Byte>, more: seq<Byte>)
    requires Index(line, NEWLINE, 0).None? && |line| > cap
    ensures Drain(filter, cap, kept, line + more) == TooLong
  {
    var at := Index(line + more, NEWLINE, 0);
    if at.Some? {
      assert forall i :: 0 <= i < |line| ==> (line + more)[i] == line[i];
    }
  }

  /** Draining the whole stream and finishing is the line-by-line specification. */
  lemma {:induction false} DrainIsFilterLines(filter: Filter, cap: nat, kept: seq<Byte>, stream: seq<Byte>)
    ensures Finish(filter, cap, Drain(filter, cap, kept, stream)) == FilterLines(filter, cap, kept, LinesOf(stream))
    decreases |stream|
  {
    hide Index;
    if stream == [] {
      assert Index(stream, NEWLINE, 0).None?;
    } else {
      var at := Index(stream, NEWLINE, 0);
      if at.None? {
        assert LinesOf(stream) == [stream] && [stream][1..] == [];
      } else {
        var first := Retain(filter, cap, kept, stream[..at.value + 1]);
        assert LinesOf(stream)[1..] == LinesOf(stream[at.value + 1..]);
        if first.Fits? {
          DrainIsFilterLines(filter, cap, first.kept, stream[at.value + 1..]);
        }
      }
    }
  }

  // ----- the stdout side of the loop

  /** `output["stdout"]` and `stdout_line`. */
  class StdoutLines {
    const filter: Filter
    const cap: nat
    var kept: seq<Byte>
    var line: seq<Byte>

    constructor (filter: Filter, cap: nat)
      ensures this.filter == filter && this.cap == cap && kept == [] && line == []
    {
      this.filter, this.cap := filter, cap;
      kept, line := [], [];
    }

    /** `retain_stdout_line`. */
    method RetainLine(text: seq<Byte>) returns (v: Verdict)
      modifies this`kept
      ensures v == Retain(filter, cap, old(kept), text)
      ensures kept == if v.Fits? then v.kept else old(kept)
    {
      if |text| > cap {
        return TooLong;
      }
      match filter(text) {
        case Dropped =>
        case Refused =>
          return BadFilter;
        case Kept(bytes) =>
          if |kept| + |bytes| > cap {
            return TooLong;
          }
          kept := kept + bytes;
      }
      return Fits(kept, []);
    }

    /** `consume_stdout`; the buffered line never outgrows the cap by more than one byte. */
    method Consume(data: seq<Byte>, end: bool) returns (v: Verdict)
      requires |line| + |data| <= cap + 1
      modifies this
      ensures v == var drained := Drain(filter, cap, old(kept), old(line) + data);
        if end then Finish(filter, cap, drained) else drained
      ensures v.Fits? ==> kept == v.kept && line == v.line && |line| <= cap
    {
      line := line + data;
      ghost var goal := Drain(filter, cap, kept, line);
      while true
        invariant goal == Drain(filter, cap, kept, line)
        decreases |line|
      {
        var newline := Index(line, NEWLINE, 0);
        if newline.None? {
          break;
        }
        var text := line[..newline.value + 1];
        line := line[newline.value + 1..];
        v := RetainLine(text);
        if !v.Fits? {
          return v;
        }
      }
      if |line| > cap {
        return TooLong;
      }
      if end && line != [] {
        var text := line;
        line := [];
        v := RetainLine(text);
        return v;
      }
      return Fits(kept, line);
    }
  }

  // ----- the whole transport

  datatype Stream = Stdout | Stderr

  /** One readiness report of the selector with the byte count the kernel chose to move. */
  datatype Event = StdoutReady(count: nat) | StderrReady(count: nat) | StdinReady(count: nat) | StdinBroken | WouldBlock

  datatype Outcome =
    | Texts(stdout: seq<Code>, stderr: seq<Code>)
    | OverLimit(stream: Stream)
    | FilterFailed
    | Undecodable
    | TimedOut
    | BadArguments

  type Decoder = seq<Byte> -> Option<seq<Code>>

  /** What the whole stdout stream amounts to, with or without a filter. */
  function StdoutVerdict(filter: Option<Filter>, cap: nat, stdout: seq<Byte>): Verdict {
    match filter
    case None => if |stdout| > cap then TooLong else Fits(stdout, [])
    case Some(f) => FilterLines(f, cap, [], LinesOf(stdout))
  }

  /** The specification: the result for these streams, no chunks and no order of events in sight. */
  function Expected(filter: Option<Filter>, cap: nat, decode: Decoder, stdout: seq<Byte>,
      stderr: seq<Byte>): Option<Outcome> {
    var v := StdoutVerdict(filter, cap, stdout);
    if !v.Fits? || |stderr| > cap then None
    else if decode(v.kept).None? || decode(stderr).None? then Some(Undecodable)
    else Some(Texts(Translate(decode(v.kept).value), Translate(decode(stderr).value)))
  }

  function Count(events: seq<Event>, kind: Event -> bool): nat {
    if events == [] then 0
    else Count(events[..|events| - 1], kind) + (if kind(events[|events| - 1]) then 1 else 0)
  }

  const IS_STDOUT: Event -> bool := (e: Event) => e.StdoutReady?
  const IS_STDERR: Event -> bool := (e: Event) => e.StderrReady?
  const IS_STDIN: Event -> bool := (e: Event) => e.StdinReady? || e.StdinBroken?

  /** Bytes moved by one call that may move between one and `limit` bytes of `available`. */
  function Moved(count: nat, limit: nat, available: nat): (n: nat)
    ensures n <= available && n <= limit
    ensures available > 0 && limit > 0 ==> n > 0
  {
    var most := if limit < available then limit else available;
    if count == 0 then if most > 0 then 1 else 0
    else if count < most then count else most
  }

  function Min(a: nat, b: nat): nat {
    if a < b then a else b
  }

  /** The outcome of a stdout stream that does not fit. */
  predicate StdoutFails(filter: Option<Filter>, cap: nat, stdout: seq<Byte>, outcome: Outcome) {
    || (outcome == OverLimit(Stdout) && StdoutVerdict(filter, cap, stdout) == TooLong)
    || (outcome == FilterFailed && StdoutVerdict(filter, cap, stdout) == BadFilter)
  }

  /** The stdout branch with a line filter; no data is the end of the stream. */
  method OnFiltered(filter: Filter, cap: nat, stdout: seq<Byte>, at: nat, data: seq<Byte>, buffer: seq<Byte>,
      lines: StdoutLines)
    returns (failure: Option<Outcome>)
    requires at + |data| <= |stdout| && data == stdout[at..at + |data|] && |lines.line| + |data| <= cap + 1
    requires data == [] ==> at == |stdout|
    requires StdoutKept(Some(filter), cap, stdout[..at], true, buffer, lines)
    modifies lines
    ensures failure.Some? ==> StdoutFails(Some(filter), cap, stdout, failure.value)
    ensures failure.None? ==> StdoutKept(Some(filter), cap, stdout[..at + |data|], data != [], buffer, lines)
  {
    hide Drain, FilterLines, LinesOf;
    assert stdout[..at] + data == stdout[..at + |data|];
    var v;
    if data == [] {
      assert stdout[..at] == stdout;
      StdoutEnd(filter, cap, stdout, lines);
      v := lines.Consume([], true);
    } else {
      StdoutMore(filter, cap, stdout, at, data, lines);
      v := lines.Consume(data, false);
    }
    failure := if v.Fits? then None else Some(if v.TooLong? then OverLimit(Stdout) else FilterFailed);
  }

  /** The stdout branch of the loop: one read of at most the room left for the partial line plus one. */
  method OnStdout(filter: Option<Filter>, cap: nat, stdout: seq<Byte>, at0: nat, buffer0: seq<Byte>,
      lines: StdoutLines, count: nat)
    returns (failure: Option<Outcome>, at: nat, open: bool, buffer: seq<Byte>)
    requires at0 <= |stdout| && StdoutKept(filter, cap, stdout[..at0], true, buffer0, lines)
    modifies lines
    ensures failure.Some? ==> StdoutFails(filter, cap, stdout, failure.value)
    ensures failure.None? ==> at <= |stdout| && StdoutKept(filter, cap, stdout[..at], open, buffer, lines)
    ensures failure.None? ==> if open then at > at0 else at == |stdout|
  {
    hide StdoutVerdict;
    at, open, buffer := at0, true, buffer0;
    if filter.Some? {
      Buffered(filter.value, cap, stdout[..at0], lines);
    }
    var bounded := if filter.Some? then |lines.line| else |buffer|;
    var n := Moved(count, Min(CHUNK, cap - bounded + 1), |stdout| - at);
    var data := stdout[at..at + n];
    assert stdout[..at] + data == stdout[..at + n];
    if filter.Some? {
      failure := OnFiltered(filter.value, cap, stdout, at, data, buffer, lines);
      at, open := at + n, n != 0;
    } else if n == 0 {
      assert stdout[..at] == stdout;
      failure, open := None, false;
    } else if |buffer| + n > cap {
      PlainTooLong(cap, stdout);
      failure := Some(OverLimit(Stdout));
    } else {
      buffer := buffer + data;
      at := at + n;
      failure := None;
    }
  }

  lemma PlainTooLong(cap: nat, stdout: seq<Byte>)
    requires |stdout| > cap
    ensures StdoutFails(None, cap, stdout, OverLimit(Stdout))
  {
  }

  /** The stderr branch: the complete stream is capped. */
  method OnStderr(cap: nat, stderr: seq<Byte>, at0: nat, errors0: seq<Byte>, count: nat)
    returns (over: bool, at: nat, open: bool, errors: seq<Byte>)
    requires at0 <= |stderr| && errors0 == stderr[..at0] && |errors0| <= cap
    ensures over ==> |stderr| > cap
    ensures !over ==> at <= |stderr| && errors == stderr[..at] && |errors| <= cap
    ensures !over ==> if open then at > at0 else at == |stderr|
  {
    at, open, errors := at0, true, errors0;
    var n := Moved(count, Min(CHUNK, cap - |errors| + 1), |stderr| - at);
    over := |errors| + n > cap;
    if n == 0 {
      open := false;
    } else if !over {
      assert stderr[..at] + stderr[at..at + n] == stderr[..at + n];
      errors := errors + stderr[at..at + n];
      at := at + n;
    }
  }

  /** Where both output pipes stand: bytes read, still registered, and what is kept of a plain stdout and of stderr. */
  datatype Outputs = Outputs(outAt: nat, errAt: nat, outOpen: bool, errOpen: bool, buffer: seq<Byte>,
      errors: seq<Byte>)

  /** What the handled events have made of the outputs. */
  ghost predicate OutputsKept(filter: Option<Filter>, cap: nat, stdout: seq<Byte>, stderr: seq<Byte>, o: Outputs,
      lines: StdoutLines, seen: seq<Event>)
    reads lines
  {
    && o.outAt <= |stdout| && o.errAt <= |stderr|
    && StdoutKept(filter, cap, stdout[..o.outAt], o.outOpen, o.buffer, lines)
    && (if o.outOpen then o.outAt >= Count(seen, IS_STDOUT) else o.outAt == |stdout|)
    && o.errors == stderr[..o.errAt] && |o.errors| <= cap
    && (if o.errOpen then o.errAt >= Count(seen, IS_STDERR) else o.errAt == |stderr|)
  }

  /** The two output branches of the loop. */
  method OnOutput(filter: Option<Filter>, cap: nat, stdout: seq<Byte>, stderr: seq<Byte>, o0: Outputs,
      lines: StdoutLines, event: Event, ghost seen: seq<Event>)
    returns (failure: Option<Outcome>, o: Outputs)
    requires OutputsKept(filter, cap, stdout, stderr, o0, lines, seen)
    modifies lines
    ensures failure.Some? ==>
      StdoutFails(filter, cap, stdout, failure.value) || (failure.value == OverLimit(Stderr) && |stderr| > cap)
    ensures failure.None? ==> OutputsKept(filter, cap, stdout, stderr, o, lines, seen + [event])
  {
    hide StdoutKept, StdoutFails, Count;
    failure, o := None, o0;
    CountStep(seen, event);
    match event {
      case StderrReady(count) =>
        if o.errOpen {
          var over, at, open, errors := OnStderr(cap, stderr, o.errAt, o.errors, count);
          if over {
            return Some(OverLimit(Stderr)), o;
          }
          o := o.(errAt := at, errOpen := open, errors := errors);
        }
      case StdoutReady(count) =>
        if o.outOpen {
          var at, open, buffer;
          failure, at, open, buffer := OnStdout(filter, cap, stdout, o.outAt, o.buffer, lines, count);
          if failure.Some? {
            return;
          }
          o := o.(outAt := at, outOpen := open, buffer := buffer);
        }
      case _ =>
    }
  }

  // ----- the stdin side of the loop

  /** How many bytes stdin has received, and whether its pipe broke before it had them all. */
  datatype Stdin = Stdin(received: nat, broken: bool)

  predicate Feeding(total: nat, st: Stdin) {
    st.received < total && !st.broken
  }

  function FeedStep(total: nat, st: Stdin, event: Event): Stdin {
    if !Feeding(total, st) then st
    else match event
      case StdinReady(count) => st.(received := st.received + Moved(count, CHUNK, total - st.received))
      case StdinBroken => st.(broken := true)
      case _ => st
  }

  /** The specification: what a schedule does to stdin, the output pipes aside. */
  function Fed(total: nat, events: seq<Event>): Stdin {
    if events == [] then Stdin(0, false) else FeedStep(total, Fed(total, events[..|events| - 1]), events[|events| - 1])
  }

  /** The pipe is given up only for a break while it is fed, and every other turn of it moves a byte. */
  lemma {:induction false} FedFacts(total: nat, events: seq<Event>)
    ensures Fed(total, events).received <= total
    ensures Fed(total, events).broken ==> StdinBroken in events && Fed(total, events).received < total
    ensures Feeding(total, Fed(total, events)) ==> Fed(total, events).received >= Count(events, IS_STDIN)
  {
    if events != [] {
      FedFacts(total, events[..|events| - 1]);
    }
  }

  /** Once stdin is closed, nothing later changes what it received. */
  lemma {:induction false} FedDone(total: nat, events: seq<Event>, n: nat)
    requires n <= |events| && !Feeding(total, Fed(total, events[..n]))
    ensures Fed(total, events) == Fed(total, events[..n])
    decreases |events|
  {
    if n == |events| {
      assert events[..n] == events;
    } else {
      assert events[..|events| - 1][..n] == events[..n];
      FedDone(total, events[..|events| - 1], n);
    }
  }

  /** What the handled events have made of stdin. */
  ghost predicate StdinKept(source: seq<Byte>, written: seq<Byte>, pending: seq<Byte>, broken: bool, seen: seq<Event>) {
    && written <= source
    && (if broken then pending == [] else written + pending == source)
    && Stdin(|written|, broken) == Fed(|source|, seen)
  }

  /** The stdin branch of the loop. */
  method OnStdin(source: seq<Byte>, written0: seq<Byte>, pending0: seq<Byte>, broken0: bool, event: Event,
      ghost seen: seq<Event>)
    returns (written: seq<Byte>, pending: seq<Byte>, broken: bool)
    requires StdinKept(source, written0, pending0, broken0, seen)
    ensures StdinKept(source, written, pending, broken, seen + [event])
  {
    hide Fed;
    written, pending, broken := written0, pending0, broken0;
    FedStep(|source|, seen, event);
    FedFacts(|source|, seen);
    if pending != [] {
      match event {
        case StdinBroken =>
          pending, broken := [], true;
        case StdinReady(count) =>
          var n := Moved(count, CHUNK, |pending|);
          WriteStep(source, written, pending, n);
          written, pending := written + pending[..n], pending[n..];
        case _ =>
      }
    }
  }

  /** What is returned of the two streams. */
  method DecodeBoth(kept: seq<Byte>, errors: seq<Byte>, decode: Decoder) returns (outcome: Outcome)
    ensures outcome ==
      if decode(kept).None? || decode(errors).None? then Undecodable
      else Texts(Translate(decode(kept).value), Translate(decode(errors).value))
  {
    hide Translate;
    var first, second := decode(kept), decode(errors);
    if first.None? || second.None? {
      return Undecodable;
    }
    ReplacesTranslate(first.value);
    ReplacesTranslate(second.value);
    return Texts(ReplaceCr(ReplaceCrLf(first.value)), ReplaceCr(ReplaceCrLf(second.value)));
  }

  /** The end of the transport was reached: no failure of either stream. */
  predicate Through(outcome: Outcome) {
    outcome.Texts? || outcome.Undecodable? || outcome.TimedOut?
  }

  /** Stdin received what some part of the schedule gives it. */
  ghost predicate FedUpTo(source: seq<Byte>, events: seq<Event>, written: seq<Byte>, broken: bool) {
    exists n :: 0 <= n <= |events| && Stdin(|written|, broken) == Fed(|source|, events[..n])
  }

  /** The result is the specified one; where there is none, the matching failure of a stream. */
  predicate Right(outcome: Outcome, filter: Option<Filter>, cap: nat, decode: Decoder, stdout: seq<Byte>,
      stderr: seq<Byte>) {
    var expected := Expected(filter, cap, decode, stdout, stderr);
    if expected.Some? then outcome == expected.value
    else StdoutFails(filter, cap, stdout, outcome) || (outcome == OverLimit(Stderr) && |stderr| > cap)
  }

  /** The schedule may end before some pipe is done: each turn of a pipe moves a byte or ends it. */
  predicate Unfinished(events: seq<Event>, stdout: nat, stderr: nat, source: nat) {
    || Count(events, IS_STDOUT) <= stdout
    || Count(events, IS_STDERR) <= stderr
    || Count(events, IS_STDIN) < source
  }

  /** `stdout` and `stderr` are all the process will ever write; `events` is the schedule until the
      deadline; `exits` says whether the process then exits in time. `written` is what stdin received. */
  method Communicate(stdout: seq<Byte>, stderr: seq<Byte>, source: seq<Byte>, hasStdin: bool, cap: int,
      filter: Option<Filter>, decode: Decoder, events: seq<Event>, exits: bool)
    returns (outcome: Outcome, written: seq<Byte>, broken: bool)
    ensures outcome == BadArguments <==> cap < 1 || (!hasStdin && source != [])
    ensures outcome !in {BadArguments, TimedOut} ==> Right(outcome, filter, cap, decode, stdout, stderr)
    ensures outcome == TimedOut ==> !exits || Unfinished(events, |stdout|, |stderr|, |source|)
    ensures written <= source && FedUpTo(source, events, written, broken)
    ensures Through(outcome) ==> Stdin(|written|, broken) == Fed(|source|, events)
    ensures broken ==> StdinBroken in events && written != source
    ensures outcome.Texts? && (!broken || StdinBroken !in events) ==> written == source
  {
    hide OutputsKept, StdinKept, StdoutVerdict, StdoutFails, Translate, Count, Fed, Expected, FedUpTo, Right,
      Unfinished;
    written, broken := [], false;
    assert events[..0] == [] && events[..|events|] == events;
    NothingFed(source);
    if cap < 1 || (!hasStdin && source != []) {
      StdinSoFar(source, events, 0, written, source, broken);
      return BadArguments, written, broken;
    }
    var limit: nat := cap;
    var lines := new StdoutLines(if filter.Some? then filter.value else (line => Dropped), limit);
    var o := Outputs(0, 0, true, true, [], []);
    var pending := source;
    var i := 0;
    NothingRead(filter, limit, stdout, stderr, lines);
    while i < |events| && (o.outOpen || o.errOpen || pending != [])
      invariant i <= |events|
      invariant OutputsKept(filter, limit, stdout, stderr, o, lines, events[..i])
      invariant StdinKept(source, written, pending, broken, events[..i])
    {
      ghost var seen := events[..i];
      var event := events[i];
      assert events[..i + 1] == seen + [event];
      var failure;
      failure, o := OnOutput(filter, limit, stdout, stderr, o, lines, event, seen);
      if failure.Some? {
        FailureIsRight(filter, limit, decode, stdout, stderr, failure.value);
        StdinSoFar(source, events, i, written, pending, broken);
        return failure.value, written, broken;
      }
      written, pending, broken := OnStdin(source, written, pending, broken, event, seen);
      i := i + 1;
    }
    StdinSoFar(source, events, i, written, pending, broken);
    if o.outOpen || o.errOpen || pending != [] || !exits {
      if o.outOpen || o.errOpen || pending != [] {
        Deadline(filter, limit, stdout, stderr, source, o, lines, events, written, pending, broken);
      }
      return TimedOut, written, broken;
    }
    AllRead(filter, limit, stdout, stderr, o, lines, events[..i]);
    var kept := if filter.Some? then lines.kept else o.buffer;
    outcome := DecodeBoth(kept, o.errors, decode);
    BothAreRight(filter, limit, decode, stdout, stderr, kept);
  }

  lemma NothingRead(filter: Option<Filter>, cap: nat, stdout: seq<Byte>, stderr: seq<Byte>, lines: StdoutLines)
    requires lines.kept == [] && lines.line == [] && lines.cap == cap && (filter.Some? ==> lines.filter == filter.value)
    ensures OutputsKept(filter, cap, stdout, stderr, Outputs(0, 0, true, true, [], []), lines, [])
  {
  }

  lemma NothingFed(source: seq<Byte>)
    ensures StdinKept(source, [], source, false, [])
  {
  }

  lemma CountStep(seen: seq<Event>, event: Event)
    ensures forall kind :: Count(seen + [event], kind) == Count(seen, kind) + (if kind(event) then 1 else 0)
  {
    assert (seen + [event])[..|seen|] == seen;
  }

  lemma FedStep(total: nat, seen: seq<Event>, event: Event)
    ensures Fed(total, seen + [event]) == FeedStep(total, Fed(total, seen), event)
  {
    assert (seen + [event])[..|seen|] == seen;
  }

  /** What stdin has received when `i` events are handled, and what that says of the rest. */
  lemma StdinSoFar(source: seq<Byte>, events: seq<Event>, i: nat, written: seq<Byte>, pending: seq<Byte>, broken: bool)
    requires i <= |events| && StdinKept(source, written, pending, broken, events[..i])
    ensures written <= source && FedUpTo(source, events, written, broken)
    ensures broken ==> StdinBroken in events && written != source
    ensures i == |events| || pending == [] ==> Stdin(|written|, broken) == Fed(|source|, events)
    ensures pending == [] && !broken ==> written == source
  {
    hide Fed, Count;
    assert events[..|events|] == events;
    FedFacts(|source|, events[..i]);
    if pending == [] {
      FedDone(|source|, events, i);
    }
  }

  /** The loop ended before the deadline only because every pipe was done. */
  lemma Deadline(filter: Option<Filter>, cap: nat, stdout: seq<Byte>, stderr: seq<Byte>, source: seq<Byte>, o: Outputs,
      lines: StdoutLines, events: seq<Event>, written: seq<Byte>, pending: seq<Byte>, broken: bool)
    requires OutputsKept(filter, cap, stdout, stderr, o, lines, events)
    requires StdinKept(source, written, pending, broken, events)
    requires o.outOpen || o.errOpen || pending != []
    ensures Unfinished(events, |stdout|, |stderr|, |source|)
  {
    hide Count, Fed, StdoutKept;
    FedFacts(|source|, events);
  }

  /** Both streams fit and were read whole. */
  lemma BothAreRight(filter: Option<Filter>, cap: nat, decode: Decoder, stdout: seq<Byte>, stderr: seq<Byte>,
      kept: seq<Byte>)
    requires StdoutVerdict(filter, cap, stdout) == Fits(kept, []) && |stderr| <= cap
    ensures Right(if decode(kept).None? || decode(stderr).None? then Undecodable
                  else Texts(Translate(decode(kept).value), Translate(decode(stderr).value)),
                  filter, cap, decode, stdout, stderr)
  {
    hide StdoutVerdict, Translate;
  }

  lemma FailureIsRight(filter: Option<Filter>, cap: nat, decode: Decoder, stdout: seq<Byte>, stderr: seq<Byte>,
      outcome: Outcome)
    requires StdoutFails(filter, cap, stdout, outcome) || (outcome == OverLimit(Stderr) && |stderr| > cap)
    ensures Right(outcome, filter, cap, decode, stdout, stderr) && (outcome.OverLimit? || outcome.FilterFailed?)
  {
    hide StdoutVerdict;
  }

  lemma AllRead(filter: Option<Filter>, cap: nat, stdout: seq<Byte>, stderr: seq<Byte>, o: Outputs, lines: StdoutLines,
      seen: seq<Event>)
    requires OutputsKept(filter, cap, stdout, stderr, o, lines, seen) && !o.outOpen && !o.errOpen
    ensures StdoutVerdict(filter, cap, stdout) == Fits(if filter.Some? then lines.kept else o.buffer, [])
    ensures o.errors == stderr && |stderr| <= cap
  {
    hide FilterLines, LinesOf, Count;
    assert stdout[..|stdout|] == stdout && stderr[..|stderr|] == stderr;
  }

  /** The buffered partial line leaves room to read at least one byte. */
  lemma Buffered(f: Filter, cap: nat, read: seq<Byte>, lines: StdoutLines)
    requires StdoutKept(Some(f), cap, read, true, [], lines) || Drain(f, cap, [], read) == Fits(lines.kept, lines.line)
    ensures |lines.line| <= cap
  {
  }

  /** What the loop has kept of the stdout bytes read so far. */
  ghost predicate StdoutKept(filter: Option<Filter>, cap: nat, read: seq<Byte>, open: bool, buffer: seq<Byte>,
      lines: StdoutLines)
    reads lines
  {
    match filter
    case None => buffer == read && |buffer| <= cap
    case Some(f) =>
      && lines.filter == f && lines.cap == cap
      && if open then Drain(f, cap, [], read) == Fits(lines.kept, lines.line)
         else FilterLines(f, cap, [], LinesOf(read)) == Fits(lines.kept, [])
  }

  lemma WriteStep(source: seq<Byte>, written: seq<Byte>, pending: seq<Byte>, n: nat)
    requires written + pending == source && n <= |pending|
    ensures written + pending[..n] + pending[n..] == source && written + pending[..n] <= source
  {
    assert pending[..n] + pending[n..] == pending;
  }

  /** Failing on a part of the stream is failing on the whole of it. */
  lemma StdoutMore(f: Filter, cap: nat, stdout: seq<Byte>, at: nat, data: seq<Byte>, lines: StdoutLines)
    requires at + |data| <= |stdout| && data == stdout[at..at + |data|]
    requires Drain(f, cap, [], stdout[..at]) == Fits(lines.kept, lines.line)
    ensures Drain(f, cap, [], stdout[..at + |data|]) == Drain(f, cap, lines.kept, lines.line + data)
    ensures var v := Drain(f, cap, lines.kept, lines.line + data);
      !v.Fits? ==> FilterLines(f, cap, [], LinesOf(stdout)) == v
  {
    hide Drain, FilterLines, LinesOf;
    DrainChunks(f, cap, [], stdout[..at], data);
    assert stdout[..at] + data == stdout[..at + |data|];
    DrainChunks(f, cap, [], stdout[..at + |data|], stdout[at + |data|..]);
    assert stdout[..at + |data|] + stdout[at + |data|..] == stdout;
    DrainIsFilterLines(f, cap, [], stdout);
  }

  lemma StdoutEnd(f: Filter, cap: nat, stdout: seq<Byte>, lines: StdoutLines)
    requires Drain(f, cap, [], stdout) == Fits(lines.kept, lines.line)
    ensures Finish(f, cap, Drain(f, cap, lines.kept, lines.line + [])) == FilterLines(f, cap, [], LinesOf(stdout))
  {
    hide FilterLines, LinesOf;
    DrainIsFilterLines(f, cap, [], stdout);
    assert lines.line + [] == lines.line;
    assert Index(lines.line, NEWLINE, 0).None?;
  }
}
