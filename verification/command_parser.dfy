/** `BaseSocketServer.parseCommand`: one request string, split into lines, becomes a
    `Command`, or the exception the Java code throws instead. */
module CommandParser {
  import opened Wrappers
  import opened Int32Text
  import opened JavaSplit

  const ADD: string := "add"
  const ADD_SOCKET: string := "addsocket"
  const REMOVE: string := "remove"

  /** The three actions; only the fields the action reads are carried. */
  datatype Command =
    | AddDllBot(name: string, team: int32, index: int32, dllDirectory: string)
    | AddSocketBot(name: string, team: int32, index: int32, socketHost: string, socketPort: int32)
    | Remove(index: int32)

  /** The exceptions `parseCommand` can throw. */
  datatype ParseError =
    | TooFewArguments               // IllegalArgumentException: fewer than two fields
    | InvalidCommand(action: string) // IllegalArgumentException: unknown first field
    | NumberFormat(text: string)     // NumberFormatException from Integer.parseInt
    | MissingField(position: nat)    // ArrayIndexOutOfBoundsException on split[position]

  /** `split[k]`. */
  function FieldAt(split: seq<string>, k: nat): (r: Result<string, ParseError>)
    ensures r.Success? <==> k < |split|
    ensures r.Success? ==> r.value == split[k]
    ensures r.Failure? ==> r.error == MissingField(k)
  {
    if k < |split| then Success(split[k]) else Failure(MissingField(k))
  }

  /** `Integer.parseInt(split[k])`: the array access happens first. */
  function IntAt(split: seq<string>, k: nat): (r: Result<int32, ParseError>)
    ensures r.Success? <==> k < |split| && ParseInt(split[k]).Some?
    ensures r.Success? ==> r.value as int == LiteralValue(split[k])
    ensures r.Failure? ==> r.error == (if k < |split| then NumberFormat(split[k]) else MissingField(k))
  {
    var text :- FieldAt(split, k);
    match ParseInt(text)
    case Some(v) => Success(v)
    case None => Failure(NumberFormat(text))
  }

  /** The fields of a request denote `cmd`: the first names its action, and the fields
      at fixed positions hold its strings verbatim and its integers in decimal. Fields
      after the last one read play no part. */
  predicate Denotes(split: seq<string>, cmd: Command) {
    match cmd
    case AddDllBot(name, team, index, dll) =>
      |split| >= 5 && split[0] == ADD && split[1] == name &&
      ParseInt(split[2]) == Some(team) && ParseInt(split[3]) == Some(index) &&
      split[4] == dll
    case AddSocketBot(name, team, index, host, port) =>
      |split| >= 6 && split[0] == ADD_SOCKET && split[1] == name &&
      ParseInt(split[2]) == Some(team) && ParseInt(split[3]) == Some(index) &&
      split[4] == host && ParseInt(split[5]) == Some(port)
    case Remove(index) =>
      |split| >= 2 && split[0] == REMOVE && ParseInt(split[1]) == Some(index)
  }

  predicate IsKeyword(action: string) {
    action == ADD || action == ADD_SOCKET || action == REMOVE
  }

  /** A read of `split[position]`, through `Integer.parseInt` when `numeric`. */
  datatype Read = Read(position: nat, numeric: bool)

  /** The reads that can fail, in the order the code for each action performs them
      (`split[1]` is in bounds once the length check has passed). */
  function Reads(action: string): seq<Read> {
    if action == ADD then [Read(2, true), Read(3, true), Read(4, false)]
    else if action == ADD_SOCKET then [Read(2, true), Read(3, true), Read(4, false), Read(5, true)]
    else if action == REMOVE then [Read(1, true)]
    else []
  }

  /** The read throws: the index is out of bounds, or the field is not a 32-bit decimal. */
  predicate Fails(split: seq<string>, rd: Read) {
    rd.position >= |split| || (rd.numeric && ParseInt(split[rd.position]) == None)
  }

  /** The exception a failing read throws. */
  function ErrorOf(split: seq<string>, rd: Read): ParseError {
    if rd.position >= |split| then MissingField(rd.position) else NumberFormat(split[rd.position])
  }

  /** The body of `parseCommand` after the split, statement by statement: the length
      check, then the action, then each field in the order the Java code reads it. */
  function ParseFields(split: seq<string>): (r: Result<Command, ParseError>)
    ensures r == Failure(TooFewArguments) <==> |split| < 2
    ensures r.Success? ==> Denotes(split, r.value)
    ensures forall cmd :: Denotes(split, cmd) ==> r == Success(cmd)
    ensures r.Failure? && r.error.InvalidCommand? <==> |split| >= 2 && !IsKeyword(split[0])
    ensures r.Failure? && r.error.InvalidCommand? ==> r.error.action == split[0]
  {
    if |split| < 2 then Failure(TooFewArguments)
    else if split[0] == ADD then
      var name := split[1];
      var team :- IntAt(split, 2);
      var index :- IntAt(split, 3);
      var dllDirectory :- FieldAt(split, 4);
      Success(AddDllBot(name, team, index, dllDirectory))
    else if split[0] == ADD_SOCKET then
      var name := split[1];
      var team :- IntAt(split, 2);
      var index :- IntAt(split, 3);
      var socketHost :- FieldAt(split, 4);
      var socketPort :- IntAt(split, 5);
      Success(AddSocketBot(name, team, index, socketHost, socketPort))
    else if split[0] == REMOVE then
      var index :- IntAt(split, 1);
      Success(Remove(index))
    else
      Failure(InvalidCommand(split[0]))
  }

  /** Which exception a failing parse throws: the one of the first read that fails, in
      the order the code performs its reads. */
  lemma FirstFailingRead(split: seq<string>, n: nat)
    requires |split| >= 2 && n < |Reads(split[0])|
    requires Fails(split, Reads(split[0])[n])
    requires forall m :: 0 <= m < n ==> !Fails(split, Reads(split[0])[m])
    ensures ParseFields(split) == Failure(ErrorOf(split, Reads(split[0])[n]))
  {
    var order := Reads(split[0]);
    if n > 0 {
      assert !Fails(split, order[0]);
    }
    if n > 1 {
      assert !Fails(split, order[1]);
    }
    if n > 2 {
      assert !Fails(split, order[2]);
    }
  }

  /** `parseCommand(socketCommand)`. */
  function ParseCommand(request: string): (r: Result<Command, ParseError>)
    ensures r == Failure(TooFewArguments) <==> |Split(request)| < 2
    ensures NEWLINE !in request ==> r == Failure(TooFewArguments)
    ensures r.Success? ==> Denotes(Split(request), r.value)
  {
    ParseFields(Split(request))
  }

  /** The lines a client sends for `cmd`, integers written by `Integer.toString`. */
  function Tokens(cmd: Command): (r: seq<string>)
  {
    match cmd
    case AddDllBot(name, team, index, dll) =>
      [ADD, name, FormatInt(team), FormatInt(index), dll]
    case AddSocketBot(name, team, index, host, port) =>
      [ADD_SOCKET, name, FormatInt(team), FormatInt(index), host, FormatInt(port)]
    case Remove(index) =>
      [REMOVE, FormatInt(index)]
  }

  function Encode(cmd: Command): string {
    Join(Tokens(cmd))
  }

  /** A command whose strings survive the line protocol: no string holds a newline, and
      the DLL directory, the last field of `add`, is not empty (split drops it). */
  predicate Encodable(cmd: Command) {
    match cmd
    case AddDllBot(name, _, _, dll) => NEWLINE !in name && NEWLINE !in dll && dll != []
    case AddSocketBot(name, _, _, host, _) => NEWLINE !in name && NEWLINE !in host
    case Remove(_) => true
  }

  lemma TokensWithoutNewline(cmd: Command)
    requires Encodable(cmd)
    ensures |Tokens(cmd)| >= 2 && Tokens(cmd)[|Tokens(cmd)| - 1] != []
    ensures forall k :: 0 <= k < |Tokens(cmd)| ==> NEWLINE !in Tokens(cmd)[k]
  {
    match cmd
    case AddDllBot(_, team, index, _) =>
      NoNewlineInNumber(team);
      NoNewlineInNumber(index);
    case AddSocketBot(_, team, index, _, port) =>
      NoNewlineInNumber(team);
      NoNewlineInNumber(index);
      NoNewlineInNumber(port);
    case Remove(index) =>
      NoNewlineInNumber(index);
  }

  lemma NoNewlineInNumber(v: int32)
    ensures NEWLINE !in FormatInt(v) && FormatInt(v) != []
  {
  }

  /** Round trip: parsing the lines a client sends for a command gives that command back. */
  lemma ParseEncode(cmd: Command)
    requires Encodable(cmd)
    ensures ParseCommand(Encode(cmd)) == Success(cmd)
  {
    TokensWithoutNewline(cmd);
    SplitJoin(Tokens(cmd));
    match cmd
    case AddDllBot(_, team, index, _) =>
      ParseFormat(team);
      ParseFormat(index);
    case AddSocketBot(_, team, index, _, port) =>
      ParseFormat(team);
      ParseFormat(index);
      ParseFormat(port);
    case Remove(index) =>
      ParseFormat(index);
  }

  /** Lines after the ones read are ignored: once a request parses, appending a newline
      and anything at all leaves the result unchanged. */
  lemma ParseIgnoresExtraLines(request: string, more: string)
    requires ParseCommand(request).Success?
    ensures ParseCommand(request + [NEWLINE] + more) == ParseCommand(request)
  {
    var split := Split(request);
    SplitExtends(request, more);
    var longer := Split(request + [NEWLINE] + more);
    assert Denotes(longer, ParseCommand(request).value) by {
      assert split == longer[..|split|];
    }
  }

  /** An `add` whose DLL directory is empty loses that field to the split and fails on
      the access to `split[4]`. */
  lemma EmptyDllDirectoryIsMissing(name: string, team: int32, index: int32)
    requires NEWLINE !in name
    ensures ParseCommand(Join([ADD, name, FormatInt(team), FormatInt(index), ""])) == Failure(MissingField(4))
  {
    var fields := [ADD, name, FormatInt(team), FormatInt(index), ""];
    var kept := fields[..4];
    NoNewlineInNumber(team);
    NoNewlineInNumber(index);
    JoinHasNewline(fields);
    PiecesJoin(fields);
    assert TrimTrailingEmpty(fields) == TrimTrailingEmpty(kept);
    assert TrimTrailingEmpty(kept) == kept;
    ParseFormat(team);
    ParseFormat(index);
  }

  /** A concrete `add` request, given by its five lines, and the command it yields. */
  lemma ParseAddExample()
    ensures ParseCommand(Join(["add", "BotA", "0", "1", "C:\\engine.dll"])) ==
            Success(AddDllBot("BotA", 0, 1, "C:\\engine.dll"))
  {
    var tokens := ["add", "BotA", "0", "1", "C:\\engine.dll"];
    var cmd := AddDllBot("BotA", 0, 1, "C:\\engine.dll");
    SplitJoin(tokens);
    assert ParseInt(tokens[2]) == Some(0) by {
      ParseFormat(0);
      assert FormatInt(0) == "0";
    }
    assert ParseInt(tokens[3]) == Some(1) by {
      ParseFormat(1);
      assert FormatInt(1) == "1";
    }
    assert Denotes(tokens, cmd);
  }

  /** An unknown action fails with the action in the error. */
  lemma ParseUnknownExample()
    ensures ParseCommand("bogus\nfoo") == Failure(InvalidCommand("bogus"))
  {
    assert Join(["bogus", "foo"]) == "bogus\nfoo";
    SplitJoin(["bogus", "foo"]);
  }
}
