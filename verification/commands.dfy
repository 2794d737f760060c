/** Slash commands (`useCommand`): the command record, the parser that
    splits `/name args`, lookup by name, and the stateless dispatcher over an
    unchanging command list. Handlers are not run here; the dispatcher says
    which handler it calls and with what arguments. */
module Commands {
  import opened JsString

  /** A handler, by identity: one supplied by the application (named by a
      tag), one of the default placeholders, or one of the controller's
      built-ins, whose effects the controller models. A built-in is an arrow
      function bound to the controller that registered it, so it carries
      that controller as its owner. */
  datatype Handler =
    | Custom(tag: string)
    | DefaultExit
    | DefaultHelp
    | DefaultClear
    | BuiltinHelp(owner: object)
    | BuiltinClear(owner: object)
    | BuiltinExit(owner: object)

  datatype SlashCommand = SlashCommand(name: string, description: string, handler: Handler)

  /** One handler call: the command found and the argument string it got. */
  datatype Invocation = Invocation(command: SlashCommand, args: string)

  datatype ParsedCommand = ParsedCommand(name: string, args: string)

  datatype CommandInfo = CommandInfo(name: string, description: string)

  /** The text after the command name in the trimmed input. */
  function AfterName(input: string, name: string): string
    requires StartsWith(Trim(input), "/" + name)
  {
    Trim(input)[1 + |name|..]
  }

  /** Split a command line: after trimming, it must start with '/'; the name
      runs from there to the first space, and the arguments are the trimmed
      rest ("" when there is no space). */
  function Parse(input: string): (r: Option<ParsedCommand>)
    ensures r.None? <==> !StartsWith(Trim(input), "/")
    ensures r.Some? ==> ' ' !in r.value.name && StartsWith(Trim(input), "/" + r.value.name)
    ensures r.Some? ==> var rest := AfterName(input, r.value.name);
                        (rest == "" && r.value.args == "")
                        || (rest != "" && rest[0] == ' ' && r.value.args == Trim(rest[1..]))
  {
    var t := Trim(input);
    if !StartsWith(t, "/") then None
    else
      var i := IndexOf(t, ' ');
      if i == -1 then
        assert t == "/" + t[1..];
        Some(ParsedCommand(t[1..], ""))
      else
        assert t[..i] == "/" + t[1..i];
        Some(ParsedCommand(t[1..i], Trim(t[i + 1..])))
  }

  predicate NoWhitespace(s: string)
  {
    forall i :: 0 <= i < |s| ==> !IsWhitespace(s[i])
  }

  /** The command line a user types for a name and an argument string. */
  function Format(name: string, args: string): string
  {
    if args == "" then "/" + name else "/" + name + " " + args
  }

  /** Parsing a formatted command line gives back its name and arguments,
      for every name without whitespace and every argument string that
      is already trimmed (inner spaces, quotes and flags included). */
  lemma ParseFormat(name: string, args: string)
    requires NoWhitespace(name)
    requires args != "" ==> !IsWhitespace(args[0]) && !IsWhitespace(args[|args| - 1])
    ensures Parse(Format(name, args)) == Some(ParsedCommand(name, args))
  {
    var head := SlashName(name);
    if args == "" {
      assert Format(name, args) == head;
      TrimOfTrimmed(head);
      assert head[1..] == name;
    } else {
      ParseWithArgs(name, args);
    }
  }

  /** "/" followed by a whitespace-free name has no whitespace and no space. */
  lemma SlashName(name: string) returns (head: string)
    requires NoWhitespace(name)
    ensures head == "/" + name && NoWhitespace(head) && ' ' !in head
  {
    head := "/" + name;
    assert forall k :: 1 <= k < |head| ==> head[k] == name[k - 1];
    assert forall k :: 0 <= k < |head| ==> !IsWhitespace(head[k]);
  }

  /** The case of `ParseFormat` with a non-empty argument string. */
  lemma ParseWithArgs(name: string, args: string)
    requires NoWhitespace(name)
    requires args != "" && !IsWhitespace(args[0]) && !IsWhitespace(args[|args| - 1])
    ensures Parse("/" + name + " " + args) == Some(ParsedCommand(name, args))
  {
    var head := SlashName(name);
    var s := head + " " + args;
    assert s[0] == '/' && s[|s| - 1] == args[|args| - 1];
    TrimOfTrimmed(s);
    assert StartsWith(Trim(s), "/");
    assert s[..|head|] == head && s[|head|] == ' ';
    IndexOfAt(s, ' ', |head|);
    assert s[1..|head|] == name;
    assert s[|head| + 1..] == args;
    TrimOfTrimmed(args);
  }

  /** `findIndex` by name: the first position holding that name, or -1. */
  function FindIndex(commands: seq<SlashCommand>, name: string): (k: int)
    ensures -1 <= k < |commands|
    ensures k >= 0 ==> commands[k].name == name
    ensures forall j :: 0 <= j < |commands| && (k == -1 || j < k) ==> commands[j].name != name
  {
    if commands == [] then -1
    else if commands[0].name == name then 0
    else
      var k := FindIndex(commands[1..], name);
      if k == -1 then -1 else k + 1
  }

  /** A bare slash, with or without trailing blanks, names the empty
      command. */
  lemma ParseBareSlash()
    ensures Parse("/") == Some(ParsedCommand("", ""))
    ensures Parse("/    ") == Some(ParsedCommand("", ""))
  {
    TrimOfTrimmed("/");
    var s := "/    ";
    assert LeadingWhitespace(s) == 0;
    assert s[0..] == s;
    assert TrailingWhitespace(s) == 4;
    assert Trim(s) == "/";
  }

  /** `find` by name: the first command with that name. */
  function Find(commands: seq<SlashCommand>, name: string): (r: Option<SlashCommand>)
    ensures r.Some? ==> r.value in commands && r.value.name == name
    ensures r.None? <==> forall j :: 0 <= j < |commands| ==> commands[j].name != name
  {
    var k := FindIndex(commands, name);
    if k == -1 then None else Some(commands[k])
  }

  /** The first command with a name wins over later ones. */
  lemma FindFirst(commands: seq<SlashCommand>, k: nat)
    requires k < |commands|
    requires forall j :: 0 <= j < k ==> commands[j].name != commands[k].name
    ensures Find(commands, commands[k].name) == Some(commands[k])
  {
    var i := FindIndex(commands, commands[k].name);
    assert i != -1 && !(i < k) && !(k < i);
  }

  datatype CommandResult = CommandResult(handled: bool, invoked: Option<Invocation>)

  /** `processCommand` of the hook: not a command line, or an unknown name,
      gives false and calls nothing; a known name calls the first command of
      that name, once, with the parsed arguments, and gives true. */
  function ProcessCommand(commands: seq<SlashCommand>, text: string): (r: CommandResult)
    ensures r.handled <==> r.invoked.Some?
    ensures Parse(text).None? ==> !r.handled
    ensures Parse(text).Some? ==>
              (r.handled <==> exists j :: 0 <= j < |commands| && commands[j].name == Parse(text).value.name)
    ensures r.handled ==> r.invoked.value.command in commands
                          && r.invoked.value.command.name == Parse(text).value.name
                          && r.invoked.value.args == Parse(text).value.args
  {
    match Parse(text)
    case None => CommandResult(false, None)
    case Some(p) =>
      match Find(commands, p.name)
      case Some(command) => CommandResult(true, Some(Invocation(command, p.args)))
      case None => CommandResult(false, None)
  }

  /** With several commands of one name, the first in the list is the one
      called. */
  lemma ProcessCommandFirstWins(commands: seq<SlashCommand>, text: string, k: nat)
    requires Parse(text).Some? && k < |commands|
    requires commands[k].name == Parse(text).value.name
    requires forall j :: 0 <= j < k ==> commands[j].name != commands[k].name
    ensures ProcessCommand(commands, text)
            == CommandResult(true, Some(Invocation(commands[k], Parse(text).value.args)))
  {
    FindFirst(commands, k);
  }

  /** `getAvailableCommands`: name and description of each command, in list
      order. */
  function Listing(commands: seq<SlashCommand>): (r: seq<CommandInfo>)
    ensures |r| == |commands|
    ensures forall i :: 0 <= i < |r| ==> r[i].name == commands[i].name && r[i].description == commands[i].description
  {
    seq(|commands|, i requires 0 <= i < |commands| => CommandInfo(commands[i].name, commands[i].description))
  }

  /** `defaultCommands`. */
  const DefaultCommands: seq<SlashCommand> := [
    SlashCommand("exit", "Exit the application", DefaultExit),
    SlashCommand("help", "Show available commands", DefaultHelp),
    SlashCommand("clear", "Clear the terminal", DefaultClear)
  ]

  /** The default list offers exit, help and clear, each once. */
  lemma DefaultCommandsOffered()
    ensures Find(DefaultCommands, "exit") == Some(DefaultCommands[0])
    ensures Find(DefaultCommands, "help") == Some(DefaultCommands[1])
    ensures Find(DefaultCommands, "clear") == Some(DefaultCommands[2])
    ensures forall i, j :: 0 <= i < j < |DefaultCommands| ==> DefaultCommands[i].name != DefaultCommands[j].name
  {
    FindFirst(DefaultCommands, 0);
    FindFirst(DefaultCommands, 1);
    FindFirst(DefaultCommands, 2);
  }
}
