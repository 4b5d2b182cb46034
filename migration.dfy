/** The HTTP service of `main.go`, as a sequential state machine: the embedded mutex is
    the `held` field, and the handlers write to a response writer. Resolving the command
    on the search path and running it are given to the handler as functions. */
module Migration {
  import opened Outcomes

  const StatusOK: int := 200

  /** The body the liveness probe writes. */
  const HealthBody: string := "{\"alive\": true}"

  /** The body the run endpoint writes: the output spliced verbatim, unescaped, between
      the prefix `{"output": "` and the suffix `"}`. */
  function OutputBody(output: string): (b: string)
    ensures |b| == |output| + 14 && b[..12] == "{\"output\": \"" && b[12..|b| - 2] == output &&
            b[|b| - 2..] == "\"}"
  {
    "{\"output\": \"" + output + "\"}"
  }

  /** The body determines the output. */
  lemma OutputBodyInjective(a: string, b: string)
    requires OutputBody(a) == OutputBody(b)
    ensures a == b
  {
    assert a == OutputBody(a)[12..|OutputBody(a)| - 2];
  }

  /** Running `echo -n test` yields the body `{"output": "test"}`. */
  lemma EchoBody()
    ensures OutputBody("test") == "{\"output\": \"test\"}"
  {
  }

  /** `exec.LookPath` resolves a command to the binary to run, or fails. */
  datatype Resolution = Binary(path: string) | NotFound(error: Error)

  /** What `CombinedOutput` gives back: the combined output and the error, if any. */
  datatype Execution = Execution(output: string, err: Option<Error>)

  /** A response writer with net/http's rules: the first status written wins, and a write
      before any status sends 200. */
  class ResponseWriter {
    var wroteHeader: bool
    var status: int
    var body: string

    constructor ()
      ensures !wroteHeader && status == StatusOK && body == []
    {
      wroteHeader, status, body := false, StatusOK, [];
    }

    method WriteHeader(code: int)
      modifies this
      ensures wroteHeader && body == old(body)
      ensures status == if old(wroteHeader) then old(status) else code
    {
      if !wroteHeader {
        status, wroteHeader := code, true;
      }
    }

    method WriteString(s: string)
      modifies this
      ensures wroteHeader && body == old(body) + s
      ensures status == if old(wroteHeader) then old(status) else StatusOK
    {
      if !wroteHeader {
        status, wroteHeader := StatusOK, true;
      }
      body := body + s;
    }
  }

  /** What happens to the gate: it is taken, the command runs, it is released. */
  datatype GateOp = Acquire | Ran(binary: string, argv: seq<string>) | Release

  /** Whether the gate is held after `history`, or None if the history breaks the rules
      of the mutex: a lock only when free, an unlock only when held, a run only when held. */
  ghost function GateAfter(history: seq<GateOp>): Option<bool>
  {
    if history == [] then Some(false)
    else
      match GateAfter(history[..|history| - 1])
      case None => None
      case Some(held) =>
        match history[|history| - 1]
        case Acquire => if held then None else Some(true)
        case Ran(_, _) => if held then Some(true) else None
        case Release => if held then Some(false) else None
  }

  /** In a history that keeps the rules, every run happens while the gate is held. */
  lemma {:induction false} RunsOnlyWhileHeld(history: seq<GateOp>, i: nat)
    requires GateAfter(history).Some? && i < |history| && history[i].Ran?
    ensures GateAfter(history[..i]) == Some(true)
    decreases |history|
  {
    var init := history[..|history| - 1];
    if i < |init| {
      assert init[i] == history[i];
      assert init[..i] == history[..i];
      RunsOnlyWhileHeld(init, i);
    } else {
      assert history[..i] == init;
    }
  }

  /** The migration service: the command and arguments it runs and its gate. */
  class CassandraMigration {
    var command: string
    var args: seq<string>
    var held: bool
    ghost var history: seq<GateOp>

    ghost predicate Valid()
      reads this
    {
      GateAfter(history) == Some(held)
    }

    constructor (command: string, args: seq<string>)
      ensures Valid() && !held && history == []
      ensures this.command == command && this.args == args
    {
      this.command, this.args, held := command, args, false;
      history := [];
    }

    /** Acquires the gate; in a sequential run it must be free. */
    method Lock()
      requires Valid() && !held
      modifies this
      ensures Valid() && held && history == old(history) + [Acquire]
      ensures command == old(command) && args == old(args)
    {
      held := true;
      history := history + [Acquire];
      assert history[..|history| - 1] == old(history);
    }

    /** Releases the gate; releasing a free mutex is a fatal error in Go. */
    method Unlock()
      requires Valid() && held
      modifies this
      ensures Valid() && !held && history == old(history) + [Release]
      ensures command == old(command) && args == old(args)
    {
      held := false;
      history := history + [Release];
      assert history[..|history| - 1] == old(history);
    }

    /** `exec.Command(binary, c.args...).CombinedOutput()`: runs the binary with the
        service's arguments; in this model it may run only while the gate is held. */
    method RunCommand(binary: string, exec: (string, seq<string>) -> Execution) returns (e: Execution)
      requires Valid() && held
      modifies this
      ensures Valid() && held && history == old(history) + [Ran(binary, args)]
      ensures e == exec(binary, args)
      ensures command == old(command) && args == old(args)
    {
      e := exec(binary, args);
      history := history + [Ran(binary, args)];
      assert history[..|history| - 1] == old(history);
    }

    /** The liveness probe: status 200 and a fixed body; the gate is not touched. */
    method HealthCheckHandler(w: ResponseWriter)
      modifies w
      ensures w.wroteHeader && w.body == old(w.body) + HealthBody
      ensures w.status == if old(w.wroteHeader) then old(w.status) else StatusOK
      ensures unchanged(this)
    {
      w.WriteHeader(StatusOK);
      w.WriteString(HealthBody);
    }

    /** The run endpoint. A lookup failure panics before the gate is taken; otherwise the
        resolved binary runs with `args` while the gate is held, the gate is released, a
        run failure panics without writing anything, and success writes status 200 and the
        output body. */
    method ExecuteHandler(w: ResponseWriter, lookPath: string -> Resolution,
                          exec: (string, seq<string>) -> Execution)
      returns (r: Outcome)
      requires Valid() && !held
      modifies this, w
      ensures Valid() && !held
      ensures command == old(command) && args == old(args)
      ensures lookPath(command).NotFound? ==>
        r == Abort(lookPath(command).error) && history == old(history) && unchanged(w)
      ensures lookPath(command).Binary? ==>
        history == old(history) + [Acquire, Ran(lookPath(command).path, args), Release]
      ensures lookPath(command).Binary? && exec(lookPath(command).path, args).err.Some? ==>
        r == Abort(exec(lookPath(command).path, args).err.value) && unchanged(w)
      ensures lookPath(command).Binary? && exec(lookPath(command).path, args).err.None? ==>
        r == Ok && w.wroteHeader &&
        w.status == (if old(w.wroteHeader) then old(w.status) else StatusOK) &&
        w.body == old(w.body) + OutputBody(exec(lookPath(command).path, args).output)
    {
      var resolved := lookPath(command);
      if resolved.NotFound? {
        return Abort(resolved.error);
      }
      var binary := resolved.path;
      Lock();
      var execution := RunCommand(binary, exec);
      Unlock();
      if execution.err.Some? {
        return Abort(execution.err.value);
      }
      w.WriteHeader(StatusOK);
      w.WriteString(OutputBody(execution.output));
      return Ok;
    }
  }

  /** `echo -n test` served once gives status 200 and body `{"output": "test"}`; a later run
      whose command cannot be found panics and writes nothing, the gate is free again, and
      the probe still answers 200 with its body. */
  method EchoThenMissingCommand() returns (echoStatus: int, echoBody: string, missing: Outcome,
                                            missingBody: string, healthStatus: int, healthBody: string)
    ensures echoStatus == StatusOK && echoBody == "{\"output\": \"test\"}"
    ensures missing.Abort? && missingBody == []
    ensures healthStatus == StatusOK && healthBody == HealthBody
  {
    var c := new CassandraMigration("echo", ["-n", "test"]);
    var w := new ResponseWriter();
    var r := c.ExecuteHandler(w, (cmd: string) => Binary("/bin/" + cmd),
                              (bin: string, argv: seq<string>) =>
                                if argv == ["-n", "test"] then Execution("test", None)
                                else Execution("", Some(Failure("unexpected arguments"))));
    echoStatus, echoBody := w.status, w.body;
    var w2 := new ResponseWriter();
    missing := c.ExecuteHandler(w2, (cmd: string) => NotFound(Failure("executable file not found in $PATH")),
                                (bin: string, argv: seq<string>) => Execution("", None));
    missingBody := w2.body;
    var w3 := new ResponseWriter();
    c.HealthCheckHandler(w3);
    healthStatus, healthBody := w3.status, w3.body;
  }
}
