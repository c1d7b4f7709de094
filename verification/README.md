# RLBot control-plane listener, modelled in Dafny

`BaseSocketServer` is the Java side of RLBot's control plane. The Python framework
opens a connection and sends one newline-separated request. The server parses the
request into a `Command` and acts on it through its bot manager:

- `add` starts an in-process bot. It initializes the native engine bridge from a DLL
  directory, starts the manager and registers the bot.
- `addsocket` starts an out-of-process bot. It sets the manager's socket target,
  starts the manager and registers the bot.
- `remove` retires a bot. When no bot is left running afterwards, the server shuts
  down.

The project models two parts of that class.

- **The command parser** (`parseCommand`) is a pure function from the request string
  to a `Command` or the exception Java throws instead. Two library calls are modelled
  exactly:
  - `String.split("\n")`, which drops trailing empty fields and returns a string with
    no newline whole (`java_split.dfy`);
  - `Integer.parseInt`, which takes an optional sign, accumulates a negative value and
    detects 32-bit overflow, with Java's truncating division written out
    (`int32_text.dfy`).
- **The lifecycle coordinator** consists of the dispatch in `start()`, `ensureStarted`,
  `ensureSocketStarted`, `retireBot` and the state effect of `shutdown`:
  - `host_spec.dfy` gives a value-level specification of the state and of each
    operation. It also holds the invariant of the control loop and its lemmas.
  - `socket_server.dfy` holds the class `BotServer`. Its methods update that state in
    place, and each method is proved to match its specification function.

The state records, in order, every call the server makes that changes its collaborators' state. The query `getRunningBotIndices()` is not recorded; its answer is the running set. An index
is running exactly when it was registered and not retired since. The manager is shut
down at most once, and only right after a retire that left no bot running.

Behaviours of the code that the model keeps, some of which a reader of the line
protocol alone would not expect:

- A request that fails to parse ends the accept loop. The exceptions
  (`IllegalArgumentException`, `NumberFormatException`, `ArrayIndexOutOfBoundsException`)
  are not `IOException`s, so `start()` returns with them (`Outcome.Halted`). The loop
  does not go on.
- A missing field of `add` or `addsocket` is an out-of-bounds array access. It is not a
  separate "malformed command" error (`ParseError.MissingField`).
- Shutdown is triggered whenever the running set is empty after a retire. This includes
  retiring an index that was not running while no bot runs. It is not only the
  non-empty to empty transition.
- An `add` whose DLL directory is the empty string loses that last field to `split` and
  fails on `split[4]` (`EmptyDllDirectoryIsMissing`).
- A failed engine initialization is swallowed. The manager is then not started, but the
  bot is registered all the same (`AddDllRequest`).
- The engine is initialized again on every `add` (`EnsureStartedTwice`).

## Model

| member | source | states |
|---|---|---|
| `Int32Text.ParseInt` | src/main/java/rlbot/pyinterop/BaseSocketServer.java:62-63 | `Integer.parseInt` succeeds exactly on an optional sign followed by at least one digit whose value lies in the 32-bit range, and then returns that value |
| `Int32Text.Accumulate` | src/main/java/rlbot/pyinterop/BaseSocketServer.java:62 | the overflow-checked digit loop never leaves the range between the limit and zero |
| `Int32Text.AccumulateCorrect` | src/main/java/rlbot/pyinterop/BaseSocketServer.java:62 | the digit loop returns minus the digits' value exactly when every character is a digit and that value does not pass the limit |
| `Int32Text.DigitsValuePrefix` | src/main/java/rlbot/pyinterop/BaseSocketServer.java:62 | a prefix of a digit string never has a larger value, so an overflow seen early is final |
| `Int32Text.ParseFormat` | src/main/java/rlbot/pyinterop/BaseSocketServer.java:62-63 | parsing the decimal text of any 32-bit value gives that value back |
| `JavaSplit.Pieces` | src/main/java/rlbot/pyinterop/BaseSocketServer.java:51 | cutting at every newline gives at least one piece, and no piece holds a newline |
| `JavaSplit.TrimTrailingEmpty` | src/main/java/rlbot/pyinterop/BaseSocketServer.java:51 | the trimmed list is a prefix of the input, everything dropped is empty, and its last field is not empty |
| `JavaSplit.Split` | src/main/java/rlbot/pyinterop/BaseSocketServer.java:51 | no field of `split("\n")` holds a newline |
| `JavaSplit.JoinPieces` | src/main/java/rlbot/pyinterop/BaseSocketServer.java:51 | joining the pieces with newlines gives back the original string |
| `JavaSplit.PiecesJoin` | src/main/java/rlbot/pyinterop/BaseSocketServer.java:51 | cutting a join of newline-free fields gives back the fields |
| `JavaSplit.PiecesConcat` | src/main/java/rlbot/pyinterop/BaseSocketServer.java:51 | a newline between two strings separates their pieces |
| `JavaSplit.PiecesCons` | src/main/java/rlbot/pyinterop/BaseSocketServer.java:51 | a character in front of a string opens a new piece when it is a newline and otherwise joins the first piece |
| `JavaSplit.PiecesWithoutNewline` | src/main/java/rlbot/pyinterop/BaseSocketServer.java:51 | a string without a newline is a single piece |
| `JavaSplit.SplitJoin` | src/main/java/rlbot/pyinterop/BaseSocketServer.java:51 | `split` undoes a join of newline-free fields whose last field is not empty (or of a single field) |
| `JavaSplit.TrimPrefix` | src/main/java/rlbot/pyinterop/BaseSocketServer.java:51 | trimming trailing empties of a longer list keeps the shorter list's trimmed form as a prefix |
| `JavaSplit.SplitExtends` | src/main/java/rlbot/pyinterop/BaseSocketServer.java:51 | appending a newline and more text to a non-empty string only adds fields after the existing ones |
| `CommandParser.IntAt` | src/main/java/rlbot/pyinterop/BaseSocketServer.java:62-63 | `Integer.parseInt(split[k])` gives the field's decimal value when it has one; otherwise the out-of-bounds access fails first, then the number-format error names the field |
| `CommandParser.FieldAt` | src/main/java/rlbot/pyinterop/BaseSocketServer.java:61-64 | `split[k]` succeeds exactly when `k` is in bounds and otherwise fails with the out-of-bounds index |
| `CommandParser.ParseFields` | src/main/java/rlbot/pyinterop/BaseSocketServer.java:53-81 | fewer than two fields fail with too-few-arguments and nothing else does; an unknown first field fails naming that field, and only then; a success denotes the fields (action, verbatim strings, decimal integers at fixed positions), and any command the fields denote is the result |
| `CommandParser.FirstFailingRead` | src/main/java/rlbot/pyinterop/BaseSocketServer.java:59-76 | a failing parse throws the exception of the first read that fails, in the code's read order (fields 2, 3, 4 for `add`; 2, 3, 4, 5 for `addsocket`; 1 for `remove`): out of bounds for a missing field, a number-format error naming the text for a field that `parseInt` refuses |
| `CommandParser.ParseCommand` | src/main/java/rlbot/pyinterop/BaseSocketServer.java:50-82 | a request splitting into fewer than two fields, in particular one without a newline, fails with too-few-arguments; a success denotes the request's fields |
| `CommandParser.ParseEncode` | src/main/java/rlbot/pyinterop/BaseSocketServer.java:50-82 | parsing the lines a client sends for a command (strings without newlines, a non-empty DLL directory) gives the command back |
| `CommandParser.ParseIgnoresExtraLines` | src/main/java/rlbot/pyinterop/BaseSocketServer.java:74-76 | once a request parses, appending a newline and any text leaves the result unchanged |
| `CommandParser.EmptyDllDirectoryIsMissing` | src/main/java/rlbot/pyinterop/BaseSocketServer.java:64 | an `add` with an empty DLL directory fails on the access to `split[4]` |
| `CommandParser.ParseAddExample` | src/main/java/rlbot/pyinterop/BaseSocketServer.java:59-64 | the request whose lines are `add`, `BotA`, `0`, `1`, `C:\engine.dll` parses to the add command with name BotA, team 0, index 1 and that directory |
| `CommandParser.ParseUnknownExample` | src/main/java/rlbot/pyinterop/BaseSocketServer.java:77-79 | `"bogus\nfoo"` fails as an invalid command naming `bogus` |
| `CommandParser.TokensWithoutNewline` | src/main/java/rlbot/pyinterop/BaseSocketServer.java:51 | the lines of an encodable command are at least two, free of newlines, and the last is not empty |
| `HostSpec.EnsureStarted` | src/main/java/rlbot/pyinterop/BaseSocketServer.java:84-91 | the manager is started and the engine initialized exactly when they already were or initialization succeeds; running set, socket and loop state unchanged; the trace grows, beginning with the initialization call and its outcome |
| `HostSpec.EnsureSocketStarted` | src/main/java/rlbot/pyinterop/BaseSocketServer.java:93-96 | the socket target is the given host and port and the manager is started; running set, engine and loop state unchanged; the trace only grows |
| `HostSpec.EnsureBotRegistered` | src/main/java/rlbot/pyinterop/BaseSocketServer.java:109 | the running set gains the index; configuration and loop state unchanged; the trace only grows |
| `HostSpec.Shutdown` | src/main/java/rlbot/pyinterop/BaseSocketServer.java:98-107 | shutdown is requested and the loop stops; running set and configuration unchanged; exactly the manager's shutdown is appended to the trace |
| `HostSpec.Dispatch` | src/main/java/rlbot/pyinterop/BaseSocketServer.java:34-42 | an add puts its index into the running set and a remove takes it out; an add never stops the loop or requests shutdown; the loop stops only with shutdown requested and no bot running; the trace only grows |
| `HostSpec.Step` | src/main/java/rlbot/pyinterop/BaseSocketServer.java:29-43 | the pass halts exactly when parsing fails, with the parser's exception and nothing changed but the end of the loop; it exits only after shutdown with no bot running; it goes on exactly when the loop still listens; the trace only grows |
| `HostSpec.Run` | src/main/java/rlbot/pyinterop/BaseSocketServer.java:28-44 | a loop that already ended changes nothing; once stopped it never listens again; shutdown is never undone; the trace only grows |
| `HostSpec.RetireBot` | src/main/java/rlbot/pyinterop/BaseSocketServer.java:111-116 | after retiring `i`, `i` does not run and every other index runs as before; shutdown is requested if and only if it already was or nothing is left running; configuration unchanged |
| `HostSpec.EnsureStartedInv` | src/main/java/rlbot/pyinterop/BaseSocketServer.java:84-91 | `ensureStarted` keeps the control-loop invariant |
| `HostSpec.EnsureSocketStartedInv` | src/main/java/rlbot/pyinterop/BaseSocketServer.java:93-96 | `ensureSocketStarted` keeps the invariant |
| `HostSpec.EnsureBotRegisteredInv` | src/main/java/rlbot/pyinterop/BaseSocketServer.java:109 | registering keeps the invariant |
| `HostSpec.RetireBotInv` | src/main/java/rlbot/pyinterop/BaseSocketServer.java:111-116 | `retireBot` keeps the invariant, shutdown included |
| `HostSpec.ShutdownInv` | src/main/java/rlbot/pyinterop/BaseSocketServer.java:98-107 | shutting down right after a retire that emptied the running set keeps the invariant |
| `HostSpec.InitialInv` | src/main/java/rlbot/pyinterop/BaseSocketServer.java:18-21 | a new server satisfies the invariant |
| `HostSpec.DispatchInv` | src/main/java/rlbot/pyinterop/BaseSocketServer.java:34-42 | every command's dispatch keeps the invariant |
| `HostSpec.StepInv` | src/main/java/rlbot/pyinterop/BaseSocketServer.java:29-43 | every pass of the accept loop keeps the invariant |
| `HostSpec.RunInv` | src/main/java/rlbot/pyinterop/BaseSocketServer.java:28-44 | the accept loop keeps the invariant over any sequence of requests |
| `HostSpec.ServeFromStart` | src/main/java/rlbot/pyinterop/BaseSocketServer.java:28-44 | from a fresh server, the manager is shut down at most once, only right after a retire that left nothing running, and the running set is exactly the registered-and-not-retired indices |
| `HostSpec.RemoveRequest` | src/main/java/rlbot/pyinterop/BaseSocketServer.java:40-41 | a `remove` request takes exactly its index out of the running set; configuration unchanged; shutdown and process exit happen if and only if nothing is left running; the calls are the retire, then the shutdown when it happens |
| `HostSpec.AddDllRequest` | src/main/java/rlbot/pyinterop/BaseSocketServer.java:34-36 | an `add` request calls engine initialization, then the manager's start only if that succeeded, then registration; the bot runs afterwards whether or not initialization succeeded; the loop goes on |
| `HostSpec.AddSocketRequest` | src/main/java/rlbot/pyinterop/BaseSocketServer.java:37-39 | an `addsocket` request sets the socket target, then starts the manager, then registers; the bot runs afterwards |
| `HostSpec.MalformedRequest` | src/main/java/rlbot/pyinterop/BaseSocketServer.java:33 | a request that fails to parse ends the loop with the parser's exception, calls no collaborator and leaves the running set as it was |
| `HostSpec.BogusRequest` | src/main/java/rlbot/pyinterop/BaseSocketServer.java:33 | `"bogus\nfoo"` ends the loop with the invalid-command error and changes nothing else |
| `HostSpec.EnsureStartedTwice` | src/main/java/rlbot/pyinterop/BaseSocketServer.java:84-91 | a second successful `ensureStarted` with the same path leaves the configuration as after the first, but initializes the engine again |
| `HostSpec.RunAddDll` | src/main/java/rlbot/pyinterop/BaseSocketServer.java:34-36 | the loop's pass on a request that parses to an `add`, with the engine initializing, leaves exactly the state with the bot added, the engine initialized and the manager started, and the loop goes on from there |
| `HostSpec.RunRemove` | src/main/java/rlbot/pyinterop/BaseSocketServer.java:40-41 | the loop's pass on a request that parses to a `remove` removes the index, and shuts down and stops listening exactly when nothing is left |
| `HostSpec.EncodedTwoBotScenario` | src/main/java/rlbot/pyinterop/BaseSocketServer.java:50-82 | the lines a client sends to add two bots and remove them again parse to those four commands |
| `HostSpec.AddTwoBots` | src/main/java/rlbot/pyinterop/BaseSocketServer.java:34-36 | in the two-bot scenario, the two `add` requests leave exactly both indices running, still listening and not shut down |
| `HostSpec.RetireOneOfTwo` | src/main/java/rlbot/pyinterop/BaseSocketServer.java:111-116 | removing the first bot then leaves only the second running, without shutdown, the loop still listening |
| `HostSpec.RetireBothOfTwo` | src/main/java/rlbot/pyinterop/BaseSocketServer.java:111-116 | removing the second bot as well empties the set, requests shutdown and ends the loop |
| `HostSpec.RetireBothShutsDownOnce` | src/main/java/rlbot/pyinterop/BaseSocketServer.java:98-116 | in that scenario the manager is shut down exactly once |
| `SocketServer.BotServer.constructor` | src/main/java/rlbot/pyinterop/BaseSocketServer.java:18-21 | a new server runs no bot, has started nothing and satisfies the invariant |
| `SocketServer.BotServer.EnsureStarted` | src/main/java/rlbot/pyinterop/BaseSocketServer.java:84-91 | on success the engine is initialized and the manager started; on failure neither flag changes |
| `SocketServer.BotServer.EnsureSocketStarted` | src/main/java/rlbot/pyinterop/BaseSocketServer.java:93-96 | the socket target is set, then the manager is started |
| `SocketServer.BotServer.EnsureBotRegistered` | src/main/java/rlbot/pyinterop/BaseSocketServer.java:109 | the index joins the running set |
| `SocketServer.BotServer.Shutdown` | src/main/java/rlbot/pyinterop/BaseSocketServer.java:98-107 | the manager is shut down and the loop stops |
| `SocketServer.BotServer.RetireBot` | src/main/java/rlbot/pyinterop/BaseSocketServer.java:111-116 | the index leaves the running set, the others stay, and shutdown happens if and only if nothing is left |
| `SocketServer.BotServer.HandleRequest` | src/main/java/rlbot/pyinterop/BaseSocketServer.java:29-43 | one pass of the loop leaves the state and outcome of `HostSpec.Step` and keeps the invariant |
| `SocketServer.BotServer.Serve` | src/main/java/rlbot/pyinterop/BaseSocketServer.java:23-48 | the accept loop leaves the state of `HostSpec.Run` and keeps the invariant; after shutdown nothing runs and the manager was shut down exactly once |

## Left out

- Socket plumbing is not modelled: binding the port, `accept`, the single `read` into a buffer sized by the receive buffer, and decoding the bytes into a `String`. A request is given as the string already read. A truncated or split read is therefore not modelled.
- `RLBotDll.initialize` is a native call. Its outcome is a boolean parameter (`initOk`) of each step, and its other effects are not modelled.
- The concrete `IBotManager` and the subclass hook `ensureBotRegistered` are not part of this model. The model assumes that registering makes the index run and that `retireBot` removes it. It also assumes that `botManager.ensureStarted`, `setSocketInfo` and `shutDown` do not throw.
- `SocketServer.BotServer.constructor`: starts from a fresh manager (no bot running, not started, no socket target) and an uninitialized engine, whereas the Java constructor accepts any `IBotManager`; `HostSpec.ServeFromStart` and the scenario lemmas rely on that starting state.
- Console output, `printStackTrace`, `Thread.sleep(1500)` and `System.exit(0)` are not modelled. Shutdown is the state change `shutdownRequested` plus the end of the loop.
- `SocketServer.BotServer.Serve`: covers a finite sequence of requests; the Java loop waits for connections forever.
- `Int32Text.ParseInt`: accepts only the ASCII digits `0`-`9`, because `Character.digit` in the JDK also accepts other Unicode decimal digits (for example full-width ones) and the model does not include Unicode's digit tables.
- Java strings are UTF-16 code units, and a Dafny `char` is a Unicode scalar value. Surrogate pairs are not modelled.
- src/main/python/rlbot/parsing/directory_scanner.py is not part of this model. It scans the file system and reads bot configuration files through a parser that is not shown.
