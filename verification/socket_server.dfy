/** `BaseSocketServer` as the object it is: its methods update, in place, the state of
    the bot manager it holds and of the native engine bridge. Each method is proved to
    leave the state that the matching function of `HostSpec` describes, and the control
    loop to keep `HostSpec.Inv`. */
module SocketServer {
  import opened Wrappers
  import opened Int32Text
  import opened CommandParser
  import HostSpec

  class BotServer {
    var running: set<int32>
    var started: bool
    var socket: Option<HostSpec.Endpoint>
    var engineInitialized: bool
    var shutdownRequested: bool
    var listening: bool
    /** The calls made on the collaborators so far, oldest first. */
    ghost var calls: seq<HostSpec.Call>

    ghost function State(): HostSpec.Host
      reads this
    {
      HostSpec.Host(running, started, socket, engineInitialized, shutdownRequested, listening, calls)
    }

    ghost predicate Valid()
      reads this
    {
      HostSpec.Inv(State())
    }

    /** A server whose manager runs no bot, before `start()` is entered. */
    constructor ()
      ensures State() == HostSpec.Initial()
      ensures Valid()
    {
      running, started, socket := {}, false, None;
      engineInitialized, shutdownRequested, listening := false, false, true;
      calls := [];
      HostSpec.InitialInv();
    }

    /** `ensureStarted`; `initOk` is the outcome of the native `RLBotDll.initialize`. */
    method EnsureStarted(dllPath: string, initOk: bool)
      modifies this
      ensures State() == HostSpec.EnsureStarted(old(State()), dllPath, initOk)
      ensures initOk ==> engineInitialized && started
      ensures !initOk ==> started == old(started) && engineInitialized == old(engineInitialized)
    {
      calls := calls + [HostSpec.InitializeEngine(dllPath, initOk)];
      if initOk {
        engineInitialized := true;
        started := true;
        calls := calls + [HostSpec.EnsureManagerStarted];
      }
    }

    /** `ensureSocketStarted`. */
    method EnsureSocketStarted(host: string, port: int32)
      modifies this
      ensures State() == HostSpec.EnsureSocketStarted(old(State()), host, port)
      ensures socket == Some(HostSpec.Endpoint(host, port)) && started
    {
      socket := Some(HostSpec.Endpoint(host, port));
      calls := calls + [HostSpec.SetSocketInfo(HostSpec.Endpoint(host, port))];
      started := true;
      calls := calls + [HostSpec.EnsureManagerStarted];
    }

    /** The `ensureBotRegistered` hook, assumed to make `index` run. */
    method EnsureBotRegistered(index: int32, name: string, team: int32)
      modifies this
      ensures State() == HostSpec.EnsureBotRegistered(old(State()), index, name, team)
      ensures running == old(running) + {index}
    {
      running := running + {index};
      calls := calls + [HostSpec.RegisterBot(index, name, team)];
    }

    /** The state effect of `shutdown()`: the manager is shut down and the loop ends. */
    method Shutdown()
      modifies this
      ensures State() == HostSpec.Shutdown(old(State()))
      ensures shutdownRequested && !listening
    {
      calls := calls + [HostSpec.ShutDownManager];
      shutdownRequested := true;
      listening := false;
    }

    /** `retireBot`: retire `index`, then shut down if nothing is left running. */
    method RetireBot(index: int32)
      modifies this
      ensures State() == HostSpec.RetireBot(old(State()), index)
      ensures index !in running
      ensures forall j :: j != index ==> (j in running <==> j in old(running))
      ensures shutdownRequested <==> old(shutdownRequested) || running == {}
    {
      running := running - {index};
      calls := calls + [HostSpec.RetireManagedBot(index)];
      if running == {} {
        Shutdown();
      }
    }

    /** One pass of the accept loop in `start()` on the request read from a connection:
        parse it, then dispatch on the action. A parse failure escapes the loop. */
    method HandleRequest(request: string, initOk: bool) returns (outcome: HostSpec.Outcome)
      requires Valid() && listening
      modifies this
      ensures (State(), outcome) == HostSpec.Step(old(State()), request, initOk)
      ensures Valid()
    {
      ghost var before := State();
      var parsed := ParseCommand(request);
      if parsed.Failure? {
        listening := false;
        outcome := HostSpec.Halted(parsed.error);
      } else {
        match parsed.value {
          case AddDllBot(name, team, index, dll) =>
            EnsureStarted(dll, initOk);
            EnsureBotRegistered(index, name, team);
          case AddSocketBot(name, team, index, host, port) =>
            EnsureSocketStarted(host, port);
            EnsureBotRegistered(index, name, team);
          case Remove(index) =>
            RetireBot(index);
        }
        outcome := if listening then HostSpec.Handled else HostSpec.Exited;
      }
      HostSpec.StepInv(before, request, initOk);
    }

    /** The `while (true)` accept loop of `start()` over the requests that arrive, each
        with the outcome of the engine initialization it may trigger; it stops when the
        requests run out, a request fails to parse, or the server shuts down. */
    method Serve(requests: seq<string>, initOks: seq<bool>)
      requires Valid() && |initOks| == |requests|
      modifies this
      ensures State() == HostSpec.Run(old(State()), requests, initOks)
      ensures Valid()
      ensures shutdownRequested ==> running == {} && HostSpec.ShutDowns(calls) == 1
    {
      var i := 0;
      while i < |requests| && listening
        invariant 0 <= i <= |requests|
        invariant Valid()
        invariant HostSpec.Run(State(), requests[i..], initOks[i..]) ==
                  HostSpec.Run(old(State()), requests, initOks)
      {
        assert requests[i..][1..] == requests[i + 1..];
        assert initOks[i..][1..] == initOks[i + 1..];
        var _ := HandleRequest(requests[i], initOks[i]);
        i := i + 1;
      }
    }
  }
}
