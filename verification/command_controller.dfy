/** The command controller (`CommandController`): a mutable list of slash
    commands with replace-or-append registration, three built-in commands,
    and a dispatcher that reports unknown commands. What the controller sends
    to its output and clear callbacks, and every handler call it makes, is
    kept as a log in its fields. */
module CommandControl {
  import opened JsString
  import opened Commands

  /** The built-in commands as registered by `owner`. */
  function HelpCommand(owner: object): SlashCommand
  {
    SlashCommand("help", "Show available commands", BuiltinHelp(owner))
  }

  function ClearCommand(owner: object): SlashCommand
  {
    SlashCommand("clear", "Clear the terminal", BuiltinClear(owner))
  }

  function ExitCommand(owner: object): SlashCommand
  {
    SlashCommand("exit", "Exit the application", BuiltinExit(owner))
  }

  /** The built-ins, in the order the constructor registers them. */
  function BuiltIns(owner: object): seq<SlashCommand>
  {
    [HelpCommand(owner), ClearCommand(owner), ExitCommand(owner)]
  }

  predicate NamesUnique(commands: seq<SlashCommand>)
  {
    forall i, j :: 0 <= i < j < |commands| ==> commands[i].name != commands[j].name
  }

  /** `registerCommand` on the list: the first command of the same name is
      replaced where it stands; without one the command is appended. */
  function Register(commands: seq<SlashCommand>, command: SlashCommand): (r: seq<SlashCommand>)
    ensures FindIndex(commands, command.name) == -1 ==> r == commands + [command]
    ensures FindIndex(commands, command.name) >= 0 ==>
              |r| == |commands| && r[FindIndex(commands, command.name)] == command
              && forall i :: 0 <= i < |r| && i != FindIndex(commands, command.name) ==> r[i] == commands[i]
  {
    var k := FindIndex(commands, command.name);
    if k >= 0 then commands[k := command] else commands + [command]
  }

  /** After registering, looking the name up gives the new command, and
      every other name is looked up as before. */
  lemma RegisterFind(commands: seq<SlashCommand>, command: SlashCommand, name: string)
    ensures Find(Register(commands, command), command.name) == Some(command)
    ensures name != command.name ==> Find(Register(commands, command), name) == Find(commands, name)
  {
    var r := Register(commands, command);
    var k := FindIndex(commands, command.name);
    var k' := if k >= 0 then k else |commands|;
    FindFirst(r, k');
    if name != command.name {
      var m := FindIndex(commands, name);
      if m >= 0 {
        FindFirst(r, m);
      }
    }
  }

  /** Registering never loses a name and keeps unique names unique. */
  lemma RegisterKeepsNames(commands: seq<SlashCommand>, command: SlashCommand)
    ensures var r := Register(commands, command);
            (forall i :: 0 <= i < |commands| ==> exists j :: 0 <= j < |r| && r[j].name == commands[i].name)
            && (NamesUnique(commands) ==> NamesUnique(r))
  {
    var r := Register(commands, command);
    var k := FindIndex(commands, command.name);
    forall i | 0 <= i < |commands|
      ensures exists j :: 0 <= j < |r| && r[j].name == commands[i].name
    {
      assert r[i].name == commands[i].name;
    }
  }

  /** `registerCommands`: registration of each command in turn. */
  function RegisterAll(commands: seq<SlashCommand>, list: seq<SlashCommand>): (r: seq<SlashCommand>)
    ensures |commands| <= |r| <= |commands| + |list|
  {
    if list == [] then commands
    else Register(RegisterAll(commands, list[..|list| - 1]), list[|list| - 1])
  }

  /** The last command of a name in a list, if any. */
  function LastNamed(list: seq<SlashCommand>, name: string): (r: Option<SlashCommand>)
    ensures r.Some? ==> r.value in list && r.value.name == name
    ensures r.None? <==> forall i :: 0 <= i < |list| ==> list[i].name != name
  {
    if list == [] then None
    else if list[|list| - 1].name == name then Some(list[|list| - 1])
    else LastNamed(list[..|list| - 1], name)
  }

  /** Of several registrations of one name, the later one wins; a name not
      registered is looked up as before. */
  lemma {:induction false} RegisterAllLaterWins(commands: seq<SlashCommand>, list: seq<SlashCommand>, name: string)
    ensures Find(RegisterAll(commands, list), name)
            == if LastNamed(list, name).Some? then LastNamed(list, name) else Find(commands, name)
  {
    if list != [] {
      var init := list[..|list| - 1];
      RegisterAllLaterWins(commands, init, name);
      RegisterFind(RegisterAll(commands, init), list[|list| - 1], name);
    }
  }

  /** Registering a list keeps unique names unique. */
  lemma {:induction false} RegisterAllKeepsUnique(commands: seq<SlashCommand>, list: seq<SlashCommand>)
    requires NamesUnique(commands)
    ensures NamesUnique(RegisterAll(commands, list))
  {
    if list != [] {
      RegisterAllKeepsUnique(commands, list[..|list| - 1]);
      RegisterKeepsNames(RegisterAll(commands, list[..|list| - 1]), list[|list| - 1]);
    }
  }

  /** Whatever list the controller starts from, help, clear and exit are
      then the built-in ones. */
  lemma BuiltInsWin(initial: seq<SlashCommand>, owner: object)
    ensures var r := RegisterAll(initial, BuiltIns(owner));
            Find(r, "help") == Some(HelpCommand(owner)) && Find(r, "clear") == Some(ClearCommand(owner))
            && Find(r, "exit") == Some(ExitCommand(owner))
  {
    var b := BuiltIns(owner);
    assert b[..2] == [HelpCommand(owner), ClearCommand(owner)];
    assert b[..2][..1] == [HelpCommand(owner)];
    assert LastNamed([HelpCommand(owner)], "help") == Some(HelpCommand(owner));
    assert LastNamed(b[..2], "help") == Some(HelpCommand(owner));
    assert LastNamed(b, "help") == Some(HelpCommand(owner));
    assert LastNamed(b[..2], "clear") == Some(ClearCommand(owner));
    assert LastNamed(b, "clear") == Some(ClearCommand(owner));
    assert LastNamed(b, "exit") == Some(ExitCommand(owner));
    RegisterAllLaterWins(initial, b, "help");
    RegisterAllLaterWins(initial, b, "clear");
    RegisterAllLaterWins(initial, b, "exit");
  }

  /** Registering the built-ins is three registrations in a row. */
  lemma RegisterAllBuiltIns(initial: seq<SlashCommand>, owner: object)
    ensures RegisterAll(initial, BuiltIns(owner))
            == Register(Register(Register(initial, HelpCommand(owner)), ClearCommand(owner)), ExitCommand(owner))
  {
    var b := BuiltIns(owner);
    assert b[..2] == [HelpCommand(owner), ClearCommand(owner)];
    assert b[..2][..1] == [HelpCommand(owner)];
    assert b[..2][..1][..0] == [];
    assert RegisterAll(initial, [HelpCommand(owner)]) == Register(initial, HelpCommand(owner));
    assert RegisterAll(initial, b[..2]) == Register(Register(initial, HelpCommand(owner)), ClearCommand(owner));
  }

  const NotFoundPrefix: string := "Command not found: /"
  const NotFoundSuffix: string := ". Type /help to see available commands."

  /** The single line reported for an unknown command name; the name can be
      read back from it. */
  function NotFoundMessage(name: string): (r: string)
    ensures StartsWith(r, NotFoundPrefix)
    ensures |r| == |NotFoundPrefix| + |name| + |NotFoundSuffix|
    ensures r[|NotFoundPrefix|..|r| - |NotFoundSuffix|] == name
    ensures r[|r| - |NotFoundSuffix|..] == NotFoundSuffix
  {
    NotFoundPrefix + name + NotFoundSuffix
  }

  /** Different unknown names give different messages. */
  lemma NotFoundMessageInjective(a: string, b: string)
    ensures NotFoundMessage(a) == NotFoundMessage(b) <==> a == b
  {
  }

  /** What the built-in help command prints: one line per command, in order. */
  function HelpLines(commands: seq<SlashCommand>): (r: seq<string>)
    ensures |r| == |commands|
    ensures forall i :: 0 <= i < |r| ==> r[i] == "/" + commands[i].name + " - " + commands[i].description
  {
    seq(|commands|, i requires 0 <= i < |commands| => "/" + commands[i].name + " - " + commands[i].description)
  }

  const ExitMessage: string := "Exiting application..."

  /** The output batches a handler sends, given its owner's commands: help
      sends its listing, exit its message, and every other handler nothing. */
  function HandlerOutput(handler: Handler, commands: seq<SlashCommand>): (r: seq<seq<string>>)
    ensures |r| <= 1
    ensures r != [] <==> handler.BuiltinHelp? || handler.BuiltinExit?
    ensures handler.BuiltinHelp? ==> r == [HelpLines(commands)] && |r[0]| == |commands|
    ensures handler.BuiltinExit? ==> r == [[ExitMessage]]
  {
    match handler
    case BuiltinHelp(_) => [HelpLines(commands)]
    case BuiltinExit(_) => [[ExitMessage]]
    case _ => []
  }

  /** The controller a built-in handler is bound to, or null for any other
      handler: the `this` its arrow function captured. */
  function BoundTo(handler: Handler): (c: CommandController?)
    ensures c != null ==> handler.BuiltinHelp? || handler.BuiltinClear? || handler.BuiltinExit?
    ensures c != null ==> c as object == handler.owner
  {
    if (handler.BuiltinHelp? || handler.BuiltinClear? || handler.BuiltinExit?)
       && handler.owner is CommandController
    then handler.owner as CommandController
    else null
  }

  /** The controllers a handler's call may change besides the caller. */
  function Bound(handler: Handler): set<object>
  {
    if BoundTo(handler) == null then {} else {BoundTo(handler)}
  }

  /** What a dispatched line may change besides the dispatching controller. */
  function Reached(commands: seq<SlashCommand>, input: string): set<object>
  {
    var d := Commands.ProcessCommand(commands, input);
    if d.invoked.Some? then Bound(d.invoked.value.command.handler) else {}
  }

  /** A command array as the source shares it: whoever holds a reference
      sees every replacement and every append made through another. */
  class CommandList {
    var items: seq<SlashCommand>

    constructor (items: seq<SlashCommand>)
      ensures this.items == items
    {
      this.items := items;
    }
  }

  /** The effect of one handler call made by `caller`: the call is
      recorded by the caller; a built-in's output, clear and exit go to the
      controller it is bound to, help listing that controller's array; and
      no other log changes. */
  twostate predicate Ran(caller: CommandController, call: Invocation)
    reads caller, Bound(call.command.handler)
    reads if BoundTo(call.command.handler) == null then {} else {BoundTo(call.command.handler).commands}
  {
    var h := call.command.handler;
    var c := BoundTo(h);
    caller.invocations == old(caller.invocations) + [call]
    && (c != null ==>
          c.output == old(c.output) + HandlerOutput(h, c.commands.items)
          && c.clears == old(c.clears) + (if h.BuiltinClear? then 1 else 0)
          && c.exitScheduled == (old(c.exitScheduled) || h.BuiltinExit?))
    && (c != caller ==>
          caller.output == old(caller.output) && caller.clears == old(caller.clears)
          && caller.exitScheduled == old(caller.exitScheduled))
    && (c != null && c != caller ==> c.invocations == old(c.invocations))
  }

  class CommandController {
    /** The array the controller registers into: the caller's own array when
        one was supplied, so registration rewrites the caller's list. */
    const commands: CommandList
    /** Every batch of lines passed to the output callback, in order. */
    var output: seq<seq<string>>
    /** How often the clear callback ran. */
    var clears: nat
    /** Every handler call this controller made, in order. */
    var invocations: seq<Invocation>
    /** Whether the exit command has scheduled the process exit. */
    var exitScheduled: bool

    /** Keeps the supplied array, or a new empty one when none is supplied,
        and registers its own help, clear and exit into it. */
    constructor (supplied: CommandList?)
      modifies supplied
      ensures supplied != null ==> commands == supplied
      ensures supplied == null ==> fresh(commands)
      ensures commands.items == RegisterAll(if supplied == null then [] else old(supplied.items), BuiltIns(this))
      ensures Find(commands.items, "help") == Some(HelpCommand(this))
      ensures Find(commands.items, "clear") == Some(ClearCommand(this))
      ensures Find(commands.items, "exit") == Some(ExitCommand(this))
      ensures NamesUnique(if supplied == null then [] else old(supplied.items)) ==> NamesUnique(commands.items)
      ensures output == [] && clears == 0 && invocations == [] && !exitScheduled
    {
      var list: CommandList;
      if supplied == null {
        list := new CommandList([]);
      } else {
        list := supplied;
      }
      ghost var initial := list.items;
      commands := list;
      output := [];
      clears := 0;
      invocations := [];
      exitScheduled := false;
      new;
      RegisterBuiltInCommands();
      BuiltInsWin(initial, this);
      if NamesUnique(initial) {
        RegisterAllKeepsUnique(initial, BuiltIns(this));
      }
    }

    /** Help, then clear, then exit, each bound to this controller and each
        replacing or appending. */
    method RegisterBuiltInCommands()
      modifies commands
      ensures commands.items == RegisterAll(old(commands.items), BuiltIns(this))
    {
      ghost var initial := commands.items;
      RegisterCommand(HelpCommand(this));
      RegisterCommand(ClearCommand(this));
      RegisterCommand(ExitCommand(this));
      RegisterAllBuiltIns(initial, this);
    }

    /** Replace or append, in the shared array; nothing else changes. */
    method RegisterCommand(command: SlashCommand)
      modifies commands
      ensures commands.items == Register(old(commands.items), command)
    {
      commands.items := Register(commands.items, command);
    }

    method RegisterCommands(list: seq<SlashCommand>)
      modifies commands
      ensures commands.items == RegisterAll(old(commands.items), list)
    {
      for i := 0 to |list|
        invariant commands.items == RegisterAll(old(commands.items), list[..i])
      {
        assert list[..i + 1][..i] == list[..i];
        RegisterCommand(list[i]);
      }
      assert list[..|list|] == list;
    }

    /** Dispatch a line. It is handled exactly when the stateless dispatcher
        would handle it against the current list; a handled line calls that
        handler once, an unknown name sends the not-found line, and a line
        that is not a command changes nothing. A built-in acts through the
        controller that registered it, which need not be this one. The list
        is never changed. */
    method ProcessCommand(input: string) returns (handled: bool)
      modifies this, Reached(commands.items, input)
      ensures commands.items == old(commands.items)
      ensures handled == Commands.ProcessCommand(commands.items, input).handled
      ensures Parse(input).None? ==>
                output == old(output) && clears == old(clears)
                && invocations == old(invocations) && exitScheduled == old(exitScheduled)
      ensures Parse(input).Some? && !handled ==>
                output == old(output) + [[NotFoundMessage(Parse(input).value.name)]]
                && clears == old(clears) && invocations == old(invocations)
                && exitScheduled == old(exitScheduled)
      ensures handled ==> Ran(this, Commands.ProcessCommand(commands.items, input).invoked.value)
    {
      var parsed := Parse(input);
      ghost var spec := Commands.ProcessCommand(commands.items, input);
      if parsed.None? {
        assert !spec.handled;
        return false;
      }
      var found := Find(commands.items, parsed.value.name);
      if found.Some? {
        assert spec.invoked == Some(Invocation(found.value, parsed.value.args));
        assert Reached(commands.items, input) == Bound(found.value.handler);
        RunHandler(found.value, parsed.value.args);
        return true;
      }
      assert !spec.handled;
      output := output + [[NotFoundMessage(parsed.value.name)]];
      return false;
    }

    /** Call a command's handler with its argument string. The call is
        recorded here; a built-in's output, clear and exit go to the
        controller it is bound to, and help lists that controller's array. */
    method RunHandler(command: SlashCommand, args: string)
      modifies this, Bound(command.handler)
      ensures commands.items == old(commands.items)
      ensures Ran(this, Invocation(command, args))
    {
      invocations := invocations + [Invocation(command, args)];
      var c := BoundTo(command.handler);
      if c != null {
        match command.handler {
          case BuiltinHelp(_) =>
            c.output := c.output + [HelpLines(c.commands.items)];
          case BuiltinClear(_) =>
            c.clears := c.clears + 1;
          case BuiltinExit(_) =>
            c.output := c.output + [[ExitMessage]];
            c.exitScheduled := true;
          case _ =>
        }
      }
    }

    /** `getAvailableCommands`: name and description of each command, in
        list order. */
    method GetAvailableCommands() returns (r: seq<CommandInfo>)
      ensures |r| == |commands.items|
      ensures forall i :: 0 <= i < |r| ==> r[i] == CommandInfo(commands.items[i].name, commands.items[i].description)
    {
      r := Listing(commands.items);
    }
  }

  /** A controller built over the exported default list rewrites that very
      list: its exit, help and clear entries become the controller's
      built-ins, in place. */
  method ControllerOverDefaults() returns (shared: CommandList, controller: CommandController)
    ensures controller.commands == shared
    ensures shared.items == [ExitCommand(controller), HelpCommand(controller), ClearCommand(controller)]
  {
    shared := new CommandList(DefaultCommands);
    controller := new CommandController(shared);
    DefaultsRegistered(controller);
  }

  /** Registering the built-ins over the default list replaces its three
      entries where they stand. */
  lemma DefaultsRegistered(owner: object)
    ensures RegisterAll(DefaultCommands, BuiltIns(owner))
            == [ExitCommand(owner), HelpCommand(owner), ClearCommand(owner)]
  {
    RegisterAllBuiltIns(DefaultCommands, owner);
    var d := DefaultCommands;
    var d1 := [d[0], HelpCommand(owner), d[2]];
    var d2 := [d[0], HelpCommand(owner), ClearCommand(owner)];
    assert FindIndex(d, "help") == 1 by { FindFirst(d, 1); }
    assert Register(d, HelpCommand(owner)) == d1;
    assert FindIndex(d1, "clear") == 2 by { FindFirst(d1, 2); }
    assert Register(d1, ClearCommand(owner)) == d2;
    assert FindIndex(d2, "exit") == 0 by { FindFirst(d2, 0); }
  }

  /** Two controllers over one array: the second one's registration
      replaces the first one's built-ins, so any help line given to the
      first prints through the second, and the first prints nothing. */
  method SharedListRebindsBuiltIns(line: string) returns (first: CommandController, second: CommandController)
    requires Parse(line).Some? && Parse(line).value.name == "help"
    ensures first.commands == second.commands
    ensures first.output == []
    ensures second.output == [HelpLines(second.commands.items)]
  {
    var shared := new CommandList([]);
    first := new CommandController(shared);
    second := new CommandController(shared);
    AskHelpThroughOther(first, second, line);
  }

  /** A help line given to `asked` whose array holds `owner`'s help
      command prints through `owner` only. */
  method AskHelpThroughOther(asked: CommandController, owner: CommandController, line: string)
    requires Parse(line).Some? && Parse(line).value.name == "help"
    requires asked != owner && asked.commands == owner.commands
    requires Find(asked.commands.items, "help") == Some(HelpCommand(owner))
    modifies asked, owner
    ensures asked.output == old(asked.output)
    ensures owner.output == old(owner.output) + [HelpLines(owner.commands.items)]
  {
    HelpReachesOwner(asked.commands.items, owner, line);
    var handled := asked.ProcessCommand(line);
  }

  /** A help line over a list whose help command is `owner`'s calls that
      command, and its effects go to `owner`. */
  lemma HelpReachesOwner(commands: seq<SlashCommand>, owner: CommandController, line: string)
    requires Find(commands, "help") == Some(HelpCommand(owner))
    requires Parse(line).Some? && Parse(line).value.name == "help"
    ensures Commands.ProcessCommand(commands, line).invoked == Some(Invocation(HelpCommand(owner), Parse(line).value.args))
    ensures Reached(commands, line) == {owner}
  {
    BoundToOwner(owner);
  }

  /** Each built-in registered by a controller is bound to it. */
  lemma BoundToOwner(owner: CommandController)
    ensures BoundTo(BuiltinHelp(owner)) == owner
    ensures BoundTo(BuiltinClear(owner)) == owner
    ensures BoundTo(BuiltinExit(owner)) == owner
  {
    assert (owner as object) is CommandController;
  }
}
