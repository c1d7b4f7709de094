/** The state that the control loop of `BaseSocketServer` changes, as a value, and each
    lifecycle operation as a function from the old state to the new one. The bot
    manager's own state is abstract: the set of running indices, whether its run loop
    was started, and its socket target. Every call the server makes on a collaborator is
    appended to `calls`, so that orderings can be stated. */
module HostSpec {
  import opened Wrappers
  import opened Int32Text
  import opened CommandParser

  datatype Endpoint = Endpoint(host: string, port: int32)

  /** A call the server makes on its collaborators. */
  datatype Call =
    | InitializeEngine(dllPath: string, succeeded: bool)   // RLBotDll.initialize
    | EnsureManagerStarted                                 // botManager.ensureStarted()
    | SetSocketInfo(endpoint: Endpoint)                    // botManager.setSocketInfo
    | RegisterBot(index: int32, name: string, team: int32) // ensureBotRegistered (the hook)
    | RetireManagedBot(index: int32)                       // botManager.retireBot
    | ShutDownManager                                      // botManager.shutDown()

  datatype Host = Host(
    running: set<int32>,        // botManager.getRunningBotIndices()
    started: bool,              // botManager.ensureStarted() has run
    socket: Option<Endpoint>,   // the manager's socket target
    engineInitialized: bool,    // some RLBotDll.initialize call succeeded
    shutdownRequested: bool,    // shutdown() has run; the process then exits
    listening: bool,            // start() is still in its accept loop
    calls: seq<Call>)

  /** What handling one request leads to: the loop goes on, `start()` ends with the
      parser's exception, or the process exits after shutdown. */
  datatype Outcome = Handled | Halted(error: ParseError) | Exited

  function Initial(): Host {
    Host({}, false, None, false, false, true, [])
  }

  /** `ensureStarted(dllPath)`: the engine is initialized, and only if that succeeds is
      the manager started; a failure is swallowed. */
  function EnsureStarted(h: Host, dllPath: string, initOk: bool): (r: Host)
    ensures r.started <==> h.started || initOk
    ensures r.engineInitialized <==> h.engineInitialized || initOk
    ensures r.running == h.running && r.socket == h.socket
    ensures r.shutdownRequested == h.shutdownRequested && r.listening == h.listening
    ensures h.calls < r.calls && r.calls[|h.calls|] == InitializeEngine(dllPath, initOk)
  {
    if initOk then
      h.(engineInitialized := true, started := true,
         calls := h.calls + [InitializeEngine(dllPath, true), EnsureManagerStarted])
    else
      h.(calls := h.calls + [InitializeEngine(dllPath, false)])
  }

  /** `ensureSocketStarted(host, port)`: the socket target is set, then the manager started. */
  function EnsureSocketStarted(h: Host, host: string, port: int32): (r: Host)
    ensures r.socket == Some(Endpoint(host, port)) && r.started
    ensures r.running == h.running && r.engineInitialized == h.engineInitialized
    ensures r.shutdownRequested == h.shutdownRequested && r.listening == h.listening
    ensures h.calls <= r.calls
  {
    h.(socket := Some(Endpoint(host, port)), started := true,
       calls := h.calls + [SetSocketInfo(Endpoint(host, port)), EnsureManagerStarted])
  }

  /** `ensureBotRegistered(index, name, team)`: the hook is assumed to make `index` run. */
  function EnsureBotRegistered(h: Host, index: int32, name: string, team: int32): (r: Host)
    ensures r.running == h.running + {index}
    ensures r.started == h.started && r.socket == h.socket && r.engineInitialized == h.engineInitialized
    ensures r.shutdownRequested == h.shutdownRequested && r.listening == h.listening
    ensures h.calls <= r.calls
  {
    h.(running := h.running + {index}, calls := h.calls + [RegisterBot(index, name, team)])
  }

  /** The state effect of `shutdown()`: the manager is shut down and the loop never
      resumes (the process exits). */
  function Shutdown(h: Host): (r: Host)
    ensures r.shutdownRequested && !r.listening
    ensures r.running == h.running
    ensures r.started == h.started && r.socket == h.socket && r.engineInitialized == h.engineInitialized
    ensures r.calls == h.calls + [ShutDownManager]
  {
    h.(shutdownRequested := true, listening := false, calls := h.calls + [ShutDownManager])
  }

  /** `retireBot(index)`: the manager retires the bot; if no bot is left running,
      the server shuts down. */
  function RetireBot(h: Host, index: int32): (r: Host)
    ensures index !in r.running
    ensures forall j :: j != index ==> (j in r.running <==> j in h.running)
    ensures r.shutdownRequested <==> h.shutdownRequested || r.running == {}
    ensures r.started == h.started && r.socket == h.socket && r.engineInitialized == h.engineInitialized
  {
    var retired := h.(running := h.running - {index}, calls := h.calls + [RetireManagedBot(index)]);
    if retired.running == {} then Shutdown(retired) else retired
  }

  /** The branch on `command.action` in `start()`. */
  function Dispatch(h: Host, cmd: Command, initOk: bool): (r: Host)
    ensures r.running == if cmd.Remove? then h.running - {cmd.index} else h.running + {cmd.index}
    ensures !cmd.Remove? ==> r.listening == h.listening && r.shutdownRequested == h.shutdownRequested
    ensures h.listening && !r.listening ==> r.shutdownRequested && r.running == {}
    ensures h.calls <= r.calls
  {
    match cmd
    case AddDllBot(name, team, index, dll) =>
      EnsureBotRegistered(EnsureStarted(h, dll, initOk), index, name, team)
    case AddSocketBot(name, team, index, host, port) =>
      EnsureBotRegistered(EnsureSocketStarted(h, host, port), index, name, team)
    case Remove(index) =>
      RetireBot(h, index)
  }

  /** One pass of the accept loop, given the request string read from the connection and
      the outcome of the native engine initialization should the request need it. A
      parse failure is not an `IOException`, so it ends `start()`. */
  function Step(h: Host, request: string, initOk: bool): (r: (Host, Outcome))
    requires h.listening
    ensures r.1.Halted? <==> ParseCommand(request).Failure?
    ensures r.1.Halted? ==> r.1.error == ParseCommand(request).error &&
                            r.0 == h.(listening := false)
    ensures r.1 == Exited ==> r.0.shutdownRequested && r.0.running == {} && !r.0.listening
    ensures r.1 == Handled <==> r.0.listening
    ensures h.calls <= r.0.calls
  {
    match ParseCommand(request)
    case Failure(e) => (h.(listening := false), Halted(e))
    case Success(cmd) =>
      var next := Dispatch(h, cmd, initOk);
      (next, if next.listening then Handled else Exited)
  }

  /** The accept loop over a sequence of requests, until they run out or the loop ends. */
  function Run(h: Host, requests: seq<string>, initOks: seq<bool>): (r: Host)
    requires |initOks| == |requests|
    ensures !h.listening ==> r == h
    ensures r.listening ==> h.listening
    ensures h.shutdownRequested ==> r.shutdownRequested
    ensures h.calls <= r.calls
    decreases |requests|
  {
    if requests == [] || !h.listening then h
    else Run(Step(h, requests[0], initOks[0]).0, requests[1..], initOks[1..])
  }

  /** Whether `i` was registered and not retired since, reading the calls backwards. */
  function Active(calls: seq<Call>, i: int32): bool
    decreases |calls|
  {
    if calls == [] then false
    else
      match calls[|calls| - 1]
      case RegisterBot(j, _, _) => j == i || Active(calls[..|calls| - 1], i)
      case RetireManagedBot(j) => j != i && Active(calls[..|calls| - 1], i)
      case _ => Active(calls[..|calls| - 1], i)
  }

  /** How many times the manager was shut down. */
  function ShutDowns(calls: seq<Call>): nat
    decreases |calls|
  {
    if calls == [] then 0
    else ShutDowns(calls[..|calls| - 1]) + (if calls[|calls| - 1] == ShutDownManager then 1 else 0)
  }

  /** The last call shut the manager down, right after a bot was retired. */
  predicate ShutDownAfterRetire(calls: seq<Call>) {
    |calls| >= 2 && calls[|calls| - 1] == ShutDownManager && calls[|calls| - 2].RetireManagedBot?
  }

  /** The invariant of the control loop: an index runs exactly when it was registered and
      not retired since; the manager was started exactly when some call started it; the
      engine is initialized exactly when some initialization succeeded; and shutdown
      happened at most once, as the direct result of a retire that left nothing running,
      and ended the loop. */
  ghost predicate Inv(h: Host) {
    (forall i :: i in h.running <==> Active(h.calls, i)) &&
    (h.started <==> EnsureManagerStarted in h.calls) &&
    (h.engineInitialized <==> exists p :: InitializeEngine(p, true) in h.calls) &&
    ShutDowns(h.calls) == (if h.shutdownRequested then 1 else 0) &&
    (h.shutdownRequested ==> !h.listening && h.running == {} && ShutDownAfterRetire(h.calls))
  }

  lemma ActiveAppend(calls: seq<Call>, c: Call, i: int32)
    ensures Active(calls + [c], i) ==
            match c
            case RegisterBot(j, _, _) => j == i || Active(calls, i)
            case RetireManagedBot(j) => j != i && Active(calls, i)
            case _ => Active(calls, i)
  {
    assert (calls + [c])[..|calls|] == calls;
  }

  lemma ShutDownsAppend(calls: seq<Call>, c: Call)
    ensures ShutDowns(calls + [c]) == ShutDowns(calls) + if c == ShutDownManager then 1 else 0
  {
    assert (calls + [c])[..|calls|] == calls;
  }

  lemma InitialInv()
    ensures Inv(Initial())
  {
  }

  /** Appending a call that neither registers, retires nor shuts down keeps the
      registered set and the shutdown count. */
  lemma NeutralAppend(calls: seq<Call>, c: Call)
    requires !c.RegisterBot? && !c.RetireManagedBot? && c != ShutDownManager
    ensures forall i :: Active(calls + [c], i) == Active(calls, i)
    ensures ShutDowns(calls + [c]) == ShutDowns(calls)
  {
    forall i ensures Active(calls + [c], i) == Active(calls, i) {
      ActiveAppend(calls, c, i);
    }
    ShutDownsAppend(calls, c);
  }

  lemma EnsureStartedInv(h: Host, dllPath: string, initOk: bool)
    requires Inv(h) && h.listening
    ensures Inv(EnsureStarted(h, dllPath, initOk))
  {
    var h' := EnsureStarted(h, dllPath, initOk);
    var first := h.calls + [InitializeEngine(dllPath, initOk)];
    NeutralAppend(h.calls, InitializeEngine(dllPath, initOk));
    if initOk {
      NeutralAppend(first, EnsureManagerStarted);
      assert h'.calls == first + [EnsureManagerStarted];
      assert InitializeEngine(dllPath, true) in h'.calls;
    } else {
      assert h'.calls == first;
      assert forall p :: InitializeEngine(p, true) in h'.calls <==> InitializeEngine(p, true) in h.calls;
    }
  }

  lemma EnsureSocketStartedInv(h: Host, host: string, port: int32)
    requires Inv(h) && h.listening
    ensures Inv(EnsureSocketStarted(h, host, port))
  {
    var h' := EnsureSocketStarted(h, host, port);
    var first := h.calls + [SetSocketInfo(Endpoint(host, port))];
    NeutralAppend(h.calls, SetSocketInfo(Endpoint(host, port)));
    NeutralAppend(first, EnsureManagerStarted);
    assert h'.calls == first + [EnsureManagerStarted];
    assert forall p :: InitializeEngine(p, true) in h'.calls <==> InitializeEngine(p, true) in h.calls;
  }

  lemma EnsureBotRegisteredInv(h: Host, index: int32, name: string, team: int32)
    requires Inv(h) && h.listening
    ensures Inv(EnsureBotRegistered(h, index, name, team))
  {
    var c := RegisterBot(index, name, team);
    forall i ensures Active(h.calls + [c], i) == (i == index || Active(h.calls, i)) {
      ActiveAppend(h.calls, c, i);
    }
    ShutDownsAppend(h.calls, c);
    var h' := EnsureBotRegistered(h, index, name, team);
    assert forall p :: InitializeEngine(p, true) in h'.calls <==> InitializeEngine(p, true) in h.calls;
  }

  lemma RetireBotInv(h: Host, index: int32)
    requires Inv(h) && h.listening
    ensures Inv(RetireBot(h, index))
  {
    var c := RetireManagedBot(index);
    var retired := h.(running := h.running - {index}, calls := h.calls + [c]);
    forall i ensures i in retired.running <==> Active(retired.calls, i) {
      ActiveAppend(h.calls, c, i);
    }
    ShutDownsAppend(h.calls, c);
    assert retired.started <==> EnsureManagerStarted in retired.calls;
    assert forall p :: InitializeEngine(p, true) in retired.calls <==> InitializeEngine(p, true) in h.calls;
    assert Inv(retired);
    if retired.running == {} {
      ShutdownInv(retired);
    }
  }

  /** Shutting down after a retire that left nothing running keeps the invariant. */
  lemma ShutdownInv(h: Host)
    requires Inv(h) && !h.shutdownRequested && h.running == {}
    requires |h.calls| >= 1 && h.calls[|h.calls| - 1].RetireManagedBot?
    ensures Inv(Shutdown(h))
  {
    var h' := Shutdown(h);
    forall i ensures i in h'.running <==> Active(h'.calls, i) {
      ActiveAppend(h.calls, ShutDownManager, i);
    }
    ShutDownsAppend(h.calls, ShutDownManager);
    assert forall p :: InitializeEngine(p, true) in h'.calls <==> InitializeEngine(p, true) in h.calls;
  }

  /** Every command keeps the invariant. */
  lemma DispatchInv(h: Host, cmd: Command, initOk: bool)
    requires Inv(h) && h.listening
    ensures Inv(Dispatch(h, cmd, initOk))
  {
    match cmd
    case AddDllBot(name, team, index, dll) =>
      EnsureStartedInv(h, dll, initOk);
      EnsureBotRegisteredInv(EnsureStarted(h, dll, initOk), index, name, team);
    case AddSocketBot(name, team, index, host, port) =>
      EnsureSocketStartedInv(h, host, port);
      EnsureBotRegisteredInv(EnsureSocketStarted(h, host, port), index, name, team);
    case Remove(index) =>
      RetireBotInv(h, index);
  }

  /** Every pass of the accept loop keeps the invariant. */
  lemma StepInv(h: Host, request: string, initOk: bool)
    requires Inv(h) && h.listening
    ensures Inv(Step(h, request, initOk).0)
  {
    if ParseCommand(request).Success? {
      DispatchInv(h, ParseCommand(request).value, initOk);
    }
  }

  /** The accept loop keeps the invariant, whatever the requests. */
  lemma {:induction false} RunInv(h: Host, requests: seq<string>, initOks: seq<bool>)
    requires |initOks| == |requests|
    requires Inv(h)
    ensures Inv(Run(h, requests, initOks))
    decreases |requests|
  {
    if requests != [] && h.listening {
      StepInv(h, requests[0], initOks[0]);
      RunInv(Step(h, requests[0], initOks[0]).0, requests[1..], initOks[1..]);
    }
  }

  /** From a fresh server, whatever requests arrive: the manager is shut down at most once,
      only right after a retire that left no bot running, and the running set is exactly
      the registered-and-not-retired indices. */
  lemma ServeFromStart(requests: seq<string>, initOks: seq<bool>)
    requires |initOks| == |requests|
    ensures var h := Run(Initial(), requests, initOks);
            ShutDowns(h.calls) <= 1 &&
            (ShutDowns(h.calls) == 1 ==> h.running == {} && ShutDownAfterRetire(h.calls)) &&
            (forall i :: i in h.running <==> Active(h.calls, i))
  {
    InitialInv();
    RunInv(Initial(), requests, initOks);
  }

  /** A `remove` request retires exactly its index and leaves the other bots and the
      configuration alone; the server shuts down, and the process exits, if and only if
      no bot is left running. */
  lemma RemoveRequest(h: Host, index: int32, initOk: bool)
    requires h.listening && !h.shutdownRequested
    ensures var (h', outcome) := Step(h, Encode(Remove(index)), initOk);
            h'.running == h.running - {index} &&
            h'.started == h.started && h'.socket == h.socket &&
            h'.engineInitialized == h.engineInitialized &&
            (h'.shutdownRequested <==> h'.running == {}) &&
            (outcome == Exited <==> h'.running == {}) &&
            (outcome == Handled <==> h'.running != {}) &&
            h'.calls == h.calls + [RetireManagedBot(index)] + if h'.running == {} then [ShutDownManager] else []
  {
    ParseEncode(Remove(index));
  }

  /** An `add` request initializes the engine, then (only if that succeeded) starts the
      manager, then registers the bot, which runs afterwards even when the engine failed. */
  lemma AddDllRequest(h: Host, name: string, team: int32, index: int32, dll: string, initOk: bool)
    requires h.listening
    requires Encodable(AddDllBot(name, team, index, dll))
    ensures var (h', outcome) := Step(h, Encode(AddDllBot(name, team, index, dll)), initOk);
            outcome == Handled &&
            h'.running == h.running + {index} &&
            h'.started == (h.started || initOk) &&
            h'.engineInitialized == (h.engineInitialized || initOk) &&
            h'.socket == h.socket && h'.shutdownRequested == h.shutdownRequested &&
            h'.calls == h.calls + [InitializeEngine(dll, initOk)] +
                        (if initOk then [EnsureManagerStarted] else []) +
                        [RegisterBot(index, name, team)]
  {
    ParseEncode(AddDllBot(name, team, index, dll));
  }

  /** An `addsocket` request sets the socket target, then starts the manager, then
      registers the bot. */
  lemma AddSocketRequest(h: Host, name: string, team: int32, index: int32, host: string, port: int32, initOk: bool)
    requires h.listening
    requires Encodable(AddSocketBot(name, team, index, host, port))
    ensures var (h', outcome) := Step(h, Encode(AddSocketBot(name, team, index, host, port)), initOk);
            outcome == Handled &&
            h'.running == h.running + {index} &&
            h'.started && h'.socket == Some(Endpoint(host, port)) &&
            h'.engineInitialized == h.engineInitialized &&
            h'.shutdownRequested == h.shutdownRequested &&
            h'.calls == h.calls + [SetSocketInfo(Endpoint(host, port)), EnsureManagerStarted,
                                   RegisterBot(index, name, team)]
  {
    ParseEncode(AddSocketBot(name, team, index, host, port));
  }

  /** A malformed request ends the loop with the parser's exception and changes nothing
      else: no collaborator is called and the running set stays as it was. */
  lemma MalformedRequest(h: Host, request: string, initOk: bool)
    requires h.listening
    requires ParseCommand(request).Failure?
    ensures var (h', outcome) := Step(h, request, initOk);
            outcome == Halted(ParseCommand(request).error) &&
            !h'.listening && h'.running == h.running && h'.calls == h.calls &&
            h'.started == h.started && h'.shutdownRequested == h.shutdownRequested
  {
  }

  /** The unknown action `bogus` is refused and the running set is untouched. */
  lemma BogusRequest(h: Host, initOk: bool)
    requires h.listening
    ensures Step(h, "bogus\nfoo", initOk) == (h.(listening := false), Halted(InvalidCommand("bogus")))
  {
    ParseUnknownExample();
  }

  /** `ensureStarted` twice with the same path leaves the same configuration as once; the
      engine is initialized a second time all the same. */
  lemma EnsureStartedTwice(h: Host, dllPath: string)
    ensures var once := EnsureStarted(h, dllPath, true);
            var twice := EnsureStarted(once, dllPath, true);
            twice.(calls := once.calls) == once &&
            twice.calls == once.calls + [InitializeEngine(dllPath, true), EnsureManagerStarted]
  {
  }

  /** The accept loop's first pass, on a request that parses to an `add` and with an
      engine that initializes, and the state it leaves. */
  lemma RunAddDll(h: Host, requests: seq<string>, initOks: seq<bool>, cmd: Command) returns (next: Host)
    requires h.listening && |initOks| == |requests| >= 1 && initOks[0]
    requires cmd.AddDllBot? && ParseCommand(requests[0]) == Success(cmd)
    ensures next == h.(running := h.running + {cmd.index}, started := true, engineInitialized := true,
                       calls := h.calls + [InitializeEngine(cmd.dllDirectory, true), EnsureManagerStarted,
                                           RegisterBot(cmd.index, cmd.name, cmd.team)])
    ensures Run(h, requests, initOks) == Run(next, requests[1..], initOks[1..])
  {
    next := Step(h, requests[0], true).0;
  }

  /** The accept loop's first pass on a request that parses to a `remove`, and the state
      it leaves. */
  lemma RunRemove(h: Host, requests: seq<string>, initOks: seq<bool>, index: int32) returns (next: Host)
    requires h.listening && !h.shutdownRequested && |initOks| == |requests| >= 1
    requires ParseCommand(requests[0]) == Success(Remove(index))
    ensures next.running == h.running - {index}
    ensures next.shutdownRequested <==> next.running == {}
    ensures next.listening <==> next.running != {}
    ensures Run(h, requests, initOks) == Run(next, requests[1..], initOks[1..])
  {
    next := Step(h, requests[0], initOks[0]).0;
  }

  /** Four requests that add two bots at different indices and then remove them, in the
      order they were added. */
  predicate TwoBotScenario(requests: seq<string>, first: Command, second: Command) {
    |requests| == 4 && first.AddDllBot? && second.AddDllBot? && first.index != second.index &&
    ParseCommand(requests[0]) == Success(first) && ParseCommand(requests[1]) == Success(second) &&
    ParseCommand(requests[2]) == Success(Remove(first.index)) &&
    ParseCommand(requests[3]) == Success(Remove(second.index))
  }

  /** The lines a client sends for the scenario form one. */
  lemma EncodedTwoBotScenario(first: Command, second: Command)
    requires first.AddDllBot? && second.AddDllBot? && first.index != second.index
    requires Encodable(first) && Encodable(second)
    ensures TwoBotScenario([Encode(first), Encode(second), Encode(Remove(first.index)),
                            Encode(Remove(second.index))], first, second)
  {
    ParseEncode(first);
    ParseEncode(second);
    ParseEncode(Remove(first.index));
    ParseEncode(Remove(second.index));
  }

  /** The first two requests of the scenario add both bots. */
  lemma AddTwoBots(requests: seq<string>, first: Command, second: Command) returns (h2: Host)
    requires TwoBotScenario(requests, first, second)
    ensures h2.running == {first.index, second.index} && h2.listening && !h2.shutdownRequested
    ensures Run(Initial(), requests, [true, true, true, true]) == Run(h2, requests[2..], [true, true])
  {
    var h1 := RunAddDll(Initial(), requests, [true, true, true, true], first);
    h2 := RunAddDll(h1, requests[1..], [true, true, true], second);
    assert requests[1..][1..] == requests[2..];
  }

  /** With both bots running, retiring the first leaves only the second running, with no
      shutdown and the loop still listening. */
  lemma RetireOneOfTwo(requests: seq<string>, first: Command, second: Command) returns (h3: Host)
    requires TwoBotScenario(requests, first, second)
    ensures h3.running == {second.index} && !h3.shutdownRequested && h3.listening
    ensures Run(Initial(), requests, [true, true, true, true]) == Run(h3, requests[3..], [true])
  {
    var h2 := AddTwoBots(requests, first, second);
    h3 := RunRemove(h2, requests[2..], [true, true], first.index);
    assert requests[2..][1..] == requests[3..];
  }

  /** Retiring the second bot as well empties the running set and ends the loop with a
      shutdown. */
  lemma RetireBothOfTwo(requests: seq<string>, first: Command, second: Command)
    requires TwoBotScenario(requests, first, second)
    ensures var h := Run(Initial(), requests, [true, true, true, true]);
            h.running == {} && h.shutdownRequested && !h.listening
  {
    var h3 := RetireOneOfTwo(requests, first, second);
    var h4 := RunRemove(h3, requests[3..], [true], second.index);
  }

  /** In that scenario the manager is shut down exactly once. */
  lemma RetireBothShutsDownOnce(requests: seq<string>, first: Command, second: Command)
    requires TwoBotScenario(requests, first, second)
    ensures ShutDowns(Run(Initial(), requests, [true, true, true, true]).calls) == 1
  {
    RetireBothOfTwo(requests, first, second);
    InitialInv();
    RunInv(Initial(), requests, [true, true, true, true]);
  }
}
