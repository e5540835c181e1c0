/**
 * The `app_mention` event handler: the command registry, the lookup of a
 * parsed command in it (an exact match on command and sub-command, else the
 * first entry of the command that takes arguments, with the sub-command
 * pushed in front of the arguments), and what the bot says afterwards.
 */
module AppMention {
  import opened Common
  import opened Text
  import opened DataInterface
  import opened PinHandlers
  import Commands
  import PinStats

  /** The handler functions of the registry. */
  datatype Handler = CmdHelp | CmdPin | CmdPinAny | CmdPinChannel | CmdPinAdd | CmdPinLoad | CmdPinRemove | CmdPinStats | CmdPollReact

  /** One entry of `commands`. */
  datatype CommandSpec = CommandSpec(cmd: string, subCmd: Option<string>, args: seq<string>, help: string, func: Handler)

  const HelpSpec := CommandSpec("help", None, [], "Prints this message", CmdHelp)
  const PinSpec := CommandSpec("pin", None, [], "Prints a random pin from this channel", CmdPin)
  const PinAnySpec := CommandSpec("pin", Some("any"), [], "Prints a random pin from any channel", CmdPinAny)
  const PinChannelSpec := CommandSpec("pin", None, ["channel"], "Prints a random pin from the specified channel", CmdPinChannel)
  const PinAddSpec := CommandSpec("pin", Some("add"), ["message_permalink"], "Adds a message to the database", CmdPinAdd)
  const PinLoadSpec := CommandSpec("pin", Some("load"), [], "Adds all current pins in this channel to the database", CmdPinLoad)
  const PinRemoveSpec := CommandSpec("pin", Some("remove"), ["message_permalink"], "Removes a message from the database", CmdPinRemove)
  const PinStatsSpec := CommandSpec("pin", Some("stats"), [], "Gets some stats on pinned messages", CmdPinStats)
  const PollReactSpec := CommandSpec("poll", Some("react"), [], "Adds reactions for pin showdown", CmdPollReact)

  /** `commands`, in the order the dispatcher searches it. */
  const Registry: seq<CommandSpec> := [
    HelpSpec, PinSpec, PinAnySpec, PinChannelSpec, PinAddSpec, PinLoadSpec, PinRemoveSpec, PinStatsSpec, PollReactSpec
  ]

  // ---- looking a command up ------------------------------------------------

  /** The two searches of the dispatcher: entries with the same command and
      sub-command, and entries with the same command that take arguments. */
  datatype Query = SameName(cmd: string, sub: Option<string>) | TakesArgs(command: string)

  predicate Passes(q: Query, s: CommandSpec) {
    match q
    case SameName(cmd, sub) => s.cmd == cmd && s.subCmd == sub
    case TakesArgs(cmd) => s.cmd == cmd && |s.args| > 0
  }

  /** `[s for s in commands if <q holds of s>]`. */
  function Filter(reg: seq<CommandSpec>, q: Query): (r: seq<CommandSpec>)
    ensures forall s :: s in r <==> s in reg && Passes(q, s)
  {
    if reg == [] then [] else (if Passes(q, reg[0]) then [reg[0]] else []) + Filter(reg[1..], q)
  }

  /** `reg[i]` is the first entry of `reg` that passes `q`. */
  predicate FirstPassing(reg: seq<CommandSpec>, q: Query, i: int) {
    0 <= i < |reg| && Passes(q, reg[i]) && forall j :: 0 <= j < i ==> !Passes(q, reg[j])
  }

  /** The head of a filtered list is the first entry that passes. */
  lemma {:induction false} FilterHead(reg: seq<CommandSpec>, q: Query)
    ensures Filter(reg, q) != [] <==> exists i :: 0 <= i < |reg| && Passes(q, reg[i])
    ensures Filter(reg, q) != [] ==> exists i :: FirstPassing(reg, q, i) && reg[i] == Filter(reg, q)[0]
  {
    if reg != [] {
      FilterHead(reg[1..], q);
      if Passes(q, reg[0]) {
        assert FirstPassing(reg, q, 0);
      } else {
        assert Filter(reg, q) == Filter(reg[1..], q);
        if Filter(reg, q) != [] {
          var i :| FirstPassing(reg[1..], q, i) && reg[1..][i] == Filter(reg[1..], q)[0];
          assert FirstPassing(reg, q, i + 1) by {
            forall j | 0 <= j < i + 1 ensures !Passes(q, reg[j]) {
              if j > 0 {
                assert reg[j] == reg[1..][j - 1];
              }
            }
          }
        }
        if exists i :: 0 <= i < |reg| && Passes(q, reg[i]) {
          var i :| 0 <= i < |reg| && Passes(q, reg[i]);
          assert reg[1..][i - 1] == reg[i];
        }
      }
    }
  }

  datatype Resolution = Exact(spec: CommandSpec) | Fallback(spec: CommandSpec) | NoMatch

  /** `matching_cmd[0]`, and whether it came from the second search. */
  function Resolve(reg: seq<CommandSpec>, cmd: string, sub: Option<string>): Resolution {
    var exact := Filter(reg, SameName(cmd, sub));
    if exact != [] then Exact(exact[0])
    else
      var withArgs := Filter(reg, TakesArgs(cmd));
      if withArgs != [] then Fallback(withArgs[0]) else NoMatch
  }

  /** The first entry with the same command and sub-command wins; failing
      that, the first entry of the command that takes arguments; failing
      that, nothing. */
  lemma ResolveMeaning(reg: seq<CommandSpec>, cmd: string, sub: Option<string>)
    ensures var r := Resolve(reg, cmd, sub);
      && (r.Exact? <==> exists i :: 0 <= i < |reg| && Passes(SameName(cmd, sub), reg[i]))
      && (r.Exact? ==> exists i :: FirstPassing(reg, SameName(cmd, sub), i) && reg[i] == r.spec)
      && (r.Fallback? <==> (forall i :: 0 <= i < |reg| ==> !Passes(SameName(cmd, sub), reg[i])) &&
                           exists i :: 0 <= i < |reg| && Passes(TakesArgs(cmd), reg[i]))
      && (r.Fallback? ==> exists i :: FirstPassing(reg, TakesArgs(cmd), i) && reg[i] == r.spec)
  {
    FilterHead(reg, SameName(cmd, sub));
    FilterHead(reg, TakesArgs(cmd));
  }

  /** The sub-commands the registry has for "pin". */
  predicate IsPinSubCommand(w: string) {
    w == "any" || w == "add" || w == "load" || w == "remove" || w == "stats"
  }

  /** What the dispatcher looks at in each registry entry. */
  lemma RegistryShape()
    ensures |Registry| == 9
    ensures forall i :: 0 <= i < |Registry| ==>
      if i == 0 then Registry[i].cmd == "help" && Registry[i].subCmd.None? && Registry[i].args == []
      else if i == 8 then Registry[i].cmd == "poll" && Registry[i].subCmd == Some("react") && Registry[i].args == []
      else && Registry[i].cmd == "pin"
           && (|Registry[i].args| > 0 <==> i == 3 || i == 4 || i == 6)
           && (Registry[i].subCmd.None? <==> i == 1 || i == 3)
           && (Registry[i].subCmd.Some? ==> IsPinSubCommand(Registry[i].subCmd.value))
  {
  }

  /** Only "pin" has entries that take arguments, and the first is `pin channel`. */
  lemma RegistryTakesArgs(cmd: string)
    ensures Filter(Registry, TakesArgs(cmd)) != [] <==> cmd == "pin"
    ensures cmd == "pin" ==> Filter(Registry, TakesArgs(cmd))[0] == Registry[3]
  {
    RegistryShape();
    FilterHead(Registry, TakesArgs(cmd));
    if cmd == "pin" {
      assert Passes(TakesArgs(cmd), Registry[3]);
      var i :| FirstPassing(Registry, TakesArgs(cmd), i) && Registry[i] == Filter(Registry, TakesArgs(cmd))[0];
      assert i == 3;
    }
  }

  /** "pin" alone runs `pin`. */
  lemma RegistryPinAlone()
    ensures Resolve(Registry, "pin", None) == Exact(Registry[1])
  {
    var q := SameName("pin", None);
    RegistryShape();
    FilterHead(Registry, q);
    assert Passes(q, Registry[1]);
    var i :| FirstPassing(Registry, q, i) && Registry[i] == Filter(Registry, q)[0];
    assert i == 1;
  }

  /** "pin" followed by one of its sub-commands matches exactly. */
  lemma RegistryPinKnown(w: string)
    requires IsPinSubCommand(w)
    ensures Filter(Registry, SameName("pin", Some(w))) != []
  {
    var q := SameName("pin", Some(w));
    FilterHead(Registry, q);
    if w == "any" {
      assert Passes(q, Registry[2]);
    } else if w == "add" {
      assert Passes(q, Registry[4]);
    } else if w == "load" {
      assert Passes(q, Registry[5]);
    } else if w == "remove" {
      assert Passes(q, Registry[6]);
    } else {
      assert Passes(q, Registry[7]);
    }
  }

  /** "pin" followed by any other word matches nothing exactly. */
  lemma RegistryPinOther(w: string)
    requires !IsPinSubCommand(w)
    ensures Filter(Registry, SameName("pin", Some(w))) == []
  {
    RegistryShape();
    FilterHead(Registry, SameName("pin", Some(w)));
  }

  /** In the bot's registry: "pin" with any word after it that is not one of
      its sub-commands runs `pin channel` with that word as its argument;
      `pin channel` is never matched exactly, since "pin" alone runs `pin`. */
  lemma RegistryFallback(cmd: string, sub: Option<string>)
    ensures Resolve(Registry, cmd, sub).Fallback? <==> cmd == "pin" && sub.Some? && !IsPinSubCommand(sub.value)
    ensures Resolve(Registry, cmd, sub).Fallback? ==> Resolve(Registry, cmd, sub).spec == Registry[3]
    ensures Resolve(Registry, "pin", None) == Exact(Registry[1])
  {
    RegistryPinAlone();
    if cmd != "pin" {
      RegistryTakesArgs(cmd);
      assert !Resolve(Registry, cmd, sub).Fallback?;
    } else if sub.None? {
      assert Resolve(Registry, cmd, sub).Exact?;
    } else if IsPinSubCommand(sub.value) {
      RegistryPinKnown(sub.value);
      assert Resolve(Registry, cmd, sub).Exact?;
    } else {
      RegistryPinOther(sub.value);
      RegistryTakesArgs(cmd);
      assert Resolve(Registry, cmd, sub) == Fallback(Registry[3]);
    }
  }

  lemma KnownCommands(cmd: string, sub: Option<string>)
    ensures cmd == "help" && sub.None? ==> Filter(Registry, SameName(cmd, sub)) != []
    ensures cmd == "poll" && sub == Some("react") ==> Filter(Registry, SameName(cmd, sub)) != []
    ensures cmd != "pin" && !(cmd == "help" && sub.None?) && !(cmd == "poll" && sub == Some("react")) ==>
              Filter(Registry, SameName(cmd, sub)) == []
  {
    RegistryShape();
    FilterHead(Registry, SameName(cmd, sub));
    if cmd == "help" && sub.None? {
      assert Passes(SameName(cmd, sub), Registry[0]);
    } else if cmd == "poll" && sub == Some("react") {
      assert Passes(SameName(cmd, sub), Registry[8]);
    }
  }

  /** The commands the bot does not know: anything but "pin", "help" without
      a sub-command and "poll react". */
  lemma RegistryNoMatch(cmd: string, sub: Option<string>)
    ensures Resolve(Registry, cmd, sub).NoMatch? <==>
              cmd != "pin" && !(cmd == "help" && sub.None?) && !(cmd == "poll" && sub == Some("react"))
  {
    KnownCommands(cmd, sub);
    RegistryTakesArgs(cmd);
  }

  // ---- help ------------------------------------------------------------------

  function ArgsText(args: seq<string>): string {
    if args == [] then "" else " <" + args[0] + ">" + ArgsText(args[1..])
  }

  /** One line of `_cmd_help`. */
  function HelpLine(s: CommandSpec): string {
    "`" + s.cmd + (if s.subCmd.Some? then " " + s.subCmd.value else "") + ArgsText(s.args) + "` - " + s.help
  }

  function HelpLines(reg: seq<CommandSpec>): (lines: seq<string>)
    ensures |lines| == |reg| && forall i :: 0 <= i < |reg| ==> lines[i] == HelpLine(reg[i])
  {
    seq(|reg|, i requires 0 <= i < |reg| => HelpLine(reg[i]))
  }

  const HelpHeader := "Here is everything I can do:"

  /** The message `_cmd_help` returns. */
  function HelpText(reg: seq<CommandSpec>): string {
    HelpHeader + "\n" + Join(HelpLines(reg), "\n")
  }

  predicate OneLine(s: string) {
    '\n' !in s
  }

  predicate SpecOnOneLine(s: CommandSpec) {
    && OneLine(s.cmd) && (s.subCmd.Some? ==> OneLine(s.subCmd.value))
    && (forall k :: 0 <= k < |s.args| ==> OneLine(s.args[k])) && OneLine(s.help)
  }

  lemma {:induction false} ArgsTextOneLine(args: seq<string>)
    requires forall k :: 0 <= k < |args| ==> OneLine(args[k])
    ensures OneLine(ArgsText(args))
  {
    if args != [] {
      ArgsTextOneLine(args[1..]);
      assert ArgsText(args) == " <" + args[0] + ">" + ArgsText(args[1..]);
    }
  }

  /** The help message is the header followed by one line per registry
      entry, in registry order. */
  lemma HelpTextLines(reg: seq<CommandSpec>)
    requires |reg| >= 1 && forall i :: 0 <= i < |reg| ==> SpecOnOneLine(reg[i])
    ensures SplitOn(HelpText(reg), '\n') == [HelpHeader] + HelpLines(reg)
  {
    var lines := [HelpHeader] + HelpLines(reg);
    forall i | 0 <= i < |reg| ensures OneLine(HelpLine(reg[i])) {
      ArgsTextOneLine(reg[i].args);
    }
    assert Join(lines, "\n") == HelpText(reg);
    SplitOnJoin(lines, '\n');
  }

  // ---- routing a mention -------------------------------------------------------

  /** What the dispatcher decides to do with an event. */
  datatype Route =
    | Ignore                               // a bot's own message
    | Crash                                // the text is missing or does not parse: nothing is said
    | Unknown(rawCmd: string)              // "Unknown command" is said
    | Run(handler: Handler, command: Commands.Command)

  /** `handle` up to the handler call. */
  function RouteOf(ev: Event): Route {
    if ev.subtype == Some("bot_message") then Ignore
    else if ev.text.None? then Crash
    else
      match Commands.FromText(ev.text.value)
      case Failed(_) => Crash
      case Parsed(c) => CommandRoute(c)
  }

  /** `handle` once the text has parsed into `c`: the registry lookup. */
  function CommandRoute(c: Commands.Command): Route {
    match Resolve(Registry, c.cmd, c.GetSubCmd())
    case NoMatch => Unknown(c.rawCmd)
    case Exact(s) => Run(s.func, c)
    case Fallback(s) =>
      // `command.args.insert(0, sub_cmd)`; a fallback needs a sub-command
      RegistryFallback(c.cmd, c.GetSubCmd());
      Run(s.func, c.(args := [c.GetSubCmd().value] + c.args))
  }

  /** A command "pin" whose sub-command is not one of its own runs
      `pin channel`, with the sub-command pushed in front of the arguments. */
  lemma PinChannelRoute(c: Commands.Command)
    ensures c.cmd == "pin" && c.subCmd.Some? && !IsPinSubCommand(c.subCmd.value) ==>
              CommandRoute(c) == Run(CmdPinChannel, c.(args := [c.subCmd.value] + c.args))
  {
    RegistryFallback(c.cmd, c.subCmd);
  }

  /** A mention whose second word is not a sub-command of "pin" reaches
      `pin channel` with that word, lower-cased, as its first argument and
      the words after it behind. */
  lemma RoutePinChannel(ev: Event)
    requires ev.subtype != Some("bot_message") && ev.text.Some?
    requires Commands.FromText(ev.text.value).Parsed?
    ensures var c := Commands.FromText(ev.text.value).command;
      c.cmd == "pin" && c.subCmd.Some? && !IsPinSubCommand(c.subCmd.value) ==>
        RouteOf(ev) == Run(CmdPinChannel, c.(args := [c.subCmd.value] + c.args))
  {
    var c := Commands.FromText(ev.text.value).command;
    assert RouteOf(ev) == CommandRoute(c);
    PinChannelRoute(c);
  }

  /** The fallback hands `pin channel` the lower-cased reference, so the id
      it extracts is the lower-cased channel id. Slack's channel ids are
      upper-case, so for such an id the exact comparison with the listed
      channel ids fails, and a channel without pins is reported "not found"
      rather than "No pins found". */
  lemma FallbackLowersChannelId(c: Commands.Command, id: string, name: string)
    requires c.cmd == "pin" && c.subCmd == Some(LowerStr("<#" + id + "|" + name + ">"))
    requires '|' !in id
    ensures CommandRoute(c).Run? && CommandRoute(c).handler == CmdPinChannel && CommandRoute(c).command.args != []
    ensures ChannelIdOf(CommandRoute(c).command.args[0]) == LowerStr(id)
    ensures (exists i :: 0 <= i < |id| && 'A' <= id[i] <= 'Z') ==> ChannelIdOf(CommandRoute(c).command.args[0]) != id
  {
    var lowered := LowerStr("<#" + id + "|" + name + ">");
    var ref := "<#" + LowerStr(id) + "|" + LowerStr(name) + ">";
    assert lowered == ref by {
      assert |lowered| == |ref|;
      forall k | 0 <= k < |ref| ensures lowered[k] == ref[k] {
        if k < 2 + |id| + 1 + |name| && k >= 2 + |id| + 1 {
          assert ref[k] == LowerStr(name)[k - 3 - |id|];
        }
      }
    }
    assert '|' !in LowerStr(id) by {
      forall k | 0 <= k < |id| ensures LowerStr(id)[k] != '|' {
        assert id[k] != '|';
      }
    }
    assert lowered[0] == '<';
    PinChannelRoute(c);
    ChannelIdOfReference(LowerStr(id), LowerStr(name));
    if exists i :: 0 <= i < |id| && 'A' <= id[i] <= 'Z' {
      var i :| 0 <= i < |id| && 'A' <= id[i] <= 'Z';
      assert LowerStr(id)[i] != id[i];
    }
  }

  // ---- what is said --------------------------------------------------------

  /** One `say` call. */
  datatype Said = SaidText(text: string) | SaidBlocks(report: StatsReport)

  datatype Outcome = Ignored | Crashed | Handled(said: seq<Said>, reactions: seq<Reaction>)

  /** `_ret_error`, `_ret_success` or `_ret_success_blocks`, or nothing when
      the status has neither key. */
  function Answer(res: HandlerResult): (said: seq<Said>)
    ensures |said| <= 1
    ensures res.Raised? ==> said == [SaidText(":warning: " + res.error)]
    ensures res == Returned(NoReply) <==> said == []
  {
    match res
    case Raised(e) => [SaidText(":warning: " + e)]
    case Returned(Reply(t)) => [SaidText(t)]
    case Returned(ReplyBlocks(r)) => [SaidBlocks(r)]
    case Returned(NoReply) => []
  }

  /** The Slack Web API answers the handlers rely on. */
  datatype SlackView = SlackView(
    channelIds: seq<string>,          // `conversations_list`
    history: History,                 // `conversations_history`
    pinnedItems: seq<PinItem>,        // `pins_list` of the mention's channel
    resolve: PinStats.Resolver)       // the lookups of `pin stats`

  predicate ChangesStore(h: Handler) {
    h == CmdPinAdd || h == CmdPinLoad || h == CmdPinRemove
  }

  /** The handler call of `handle`, and the reactions it adds. */
  method RunHandler(store: PinStore, slack: SlackView, ev: Event, handler: Handler, command: Commands.Command)
    returns (res: HandlerResult, reactions: seq<Reaction>)
    requires store.Valid()
    modifies store
    ensures store.Valid()
    ensures !ChangesStore(handler) ==> store.rows == old(store.rows)
    ensures handler != CmdPollReact ==> reactions == []
    ensures handler == CmdHelp ==> res == Returned(Reply(HelpText(Registry)))
    ensures handler == CmdPollReact ==> res == Returned(NoReply) && reactions == PinHandlers.PollReact(ev).0
    ensures handler == CmdPinStats ==> res == PinStats.Stats(old(store.GetAllPins(None)), slack.resolve)
  {
    reactions := [];
    match handler {
      case CmdHelp =>
        res := Returned(Reply(HelpText(Registry)));
      case CmdPin =>
        res := PinHere(store, ev);
      case CmdPinAny =>
        res := PinHandlers.PinAny(store);
      case CmdPinChannel =>
        res := PinHandlers.PinChannel(store, command, slack.channelIds);
      case CmdPinAdd =>
        res := PinHandlers.PinAdd(store, command, ev, slack.history);
      case CmdPinLoad =>
        res := PinHandlers.PinLoad(store, ev, slack.pinnedItems);
      case CmdPinRemove =>
        res := PinHandlers.PinRemove(store, command);
      case CmdPinStats =>
        res := PinStats.PinStatsCmd(store, slack.resolve);
      case CmdPollReact =>
        var poll := PinHandlers.PollReact(ev);
        reactions := poll.0;
        res := poll.1;
    }
  }

  /** `handle`: route the event and run the handler it names. */
  method HandleMention(store: PinStore, slack: SlackView, ev: Event) returns (out: Outcome)
    requires store.Valid()
    modifies store
    ensures store.Valid()
    ensures !(RouteOf(ev).Run? && ChangesStore(RouteOf(ev).handler)) ==> store.rows == old(store.rows)
    ensures RouteOf(ev) == Ignore ==> out == Ignored
    ensures RouteOf(ev) == Crash ==> out == Crashed
    ensures RouteOf(ev).Unknown? ==> out == Handled([SaidText(":warning: Unknown command `" + RouteOf(ev).rawCmd + "`")], [])
    ensures RouteOf(ev).Run? ==> out.Handled? && |out.said| <= 1
    ensures RouteOf(ev).Run? && RouteOf(ev).handler != CmdPollReact ==> out.reactions == []
    ensures RouteOf(ev).Run? && RouteOf(ev).handler == CmdHelp ==> out.said == [SaidText(HelpText(Registry))]
    ensures RouteOf(ev).Run? && RouteOf(ev).handler == CmdPollReact ==> out == Handled([], PinHandlers.PollReact(ev).0)
    ensures RouteOf(ev).Run? && RouteOf(ev).handler == CmdPinStats ==>
              out.said == Answer(PinStats.Stats(old(store.GetAllPins(None)), slack.resolve))
  {
    var route := RouteOf(ev);
    match route {
      case Ignore =>
        return Ignored;
      case Crash =>
        return Crashed;
      case Unknown(raw) =>
        return Handled([SaidText(":warning: Unknown command `" + raw + "`")], []);
      case Run(handler, command) =>
        var res, reactions := RunHandler(store, slack, ev, handler, command);
        out := Handled(Answer(res), reactions);
    }
  }
}
