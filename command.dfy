/**
 * The mention parser of STTBot/models/command.py: a mention such as
 * "<@U123> pin add <link>" becomes a `Command` record.
 */
module Commands {
  import opened Common
  import opened Text

  /** The `Command` record. The constructor's `default_sub_cmd` argument is
      accepted by the source and then dropped, so it has no field here. */
  datatype Command = Command(rawCmd: string, cmd: string, subCmd: Option<string>, args: seq<string>)
  {
    /** The dispatcher reads the sub-command through `command.get_sub_cmd()`,
        a method the `Command` class does not define; the model takes it to
        return the sub-command as parsed. */
    function GetSubCmd(): Option<string> { subCmd }
  }

  /** The ways `Command.from_text` can fail. */
  datatype ParseError =
    | NoWords          // `words[0]` on an empty word list raises IndexError
    | NotMentioned     // "Bot must be mentioned at start of message"
    | MissingCommand   // "Bot requires a command after mention"

  datatype ParseResult = Parsed(command: Command) | Failed(error: ParseError)

  /** `user_at_pattern.match(w)` for the pattern `<@.+>`: the word starts with
      "<@", and a '>' follows after at least one character that is not a
      newline. The pattern has no end anchor, so anything may follow. */
  predicate IsUserMention(w: string) {
    |w| >= 4 && w[0] == '<' && w[1] == '@' &&
    exists k :: 3 <= k < |w| && w[k] == '>' && forall i :: 2 <= i < k ==> w[i] != '\n'
  }

  /** The record built from the words after the mention: the first is the
      command, the second the sub-command, the rest the arguments. */
  function CommandOf(rest: seq<string>): Command
    requires rest != []
  {
    var subCmd := if |rest| > 1 then Some(LowerStr(rest[1])) else None;
    var args := if |rest| > 2 then rest[2..] else [];
    Command(Join(rest, " "), LowerStr(rest[0]), subCmd, args)
  }

  /** `Command.from_text(text)`. */
  function FromText(text: string): ParseResult
  {
    var words := Split(text);
    if words == [] then Failed(NoWords)
    else if !IsUserMention(words[0]) then Failed(NotMentioned)
    else if words[1..] == [] then Failed(MissingCommand)
    else Parsed(CommandOf(words[1..]))
  }

  /** The three error exits, in the order the source checks them: blank text
      fails first (before any mention check), then a first word that is not a
      mention, then a mention with nothing after it. */
  lemma FromTextErrors(text: string)
    ensures FromText(text) == Failed(NoWords) <==> forall i :: 0 <= i < |text| ==> IsSpace(text[i])
    ensures FromText(text) == Failed(NotMentioned) <==>
              Split(text) != [] && !IsUserMention(Split(text)[0])
    ensures FromText(text) == Failed(MissingCommand) <==>
              |Split(text)| == 1 && IsUserMention(Split(text)[0])
  {
    SplitEmpty(text);
  }

  /** A successful parse had a mention and at least one word after it, and
      built its record from the words after the mention. */
  lemma ParsedFrom(text: string, c: Command)
    requires FromText(text) == Parsed(c)
    ensures |Split(text)| >= 2 && IsUserMention(Split(text)[0])
    ensures c == CommandOf(Split(text)[1..])
  {
  }

  /** The words after the first are words. */
  lemma WordsTail(ws: seq<string>)
    requires ws != [] && forall k :: 0 <= k < |ws| ==> IsWord(ws[k])
    ensures forall k :: 0 <= k < |ws[1..]| ==> IsWord(ws[1..][k])
  {
  }

  /** Joining a word in front of a non-empty list. */
  lemma JoinCons(w: string, ws: seq<string>, sep: string)
    requires ws != []
    ensures Join([w] + ws, sep) == w + sep + Join(ws, sep)
  {
    assert ([w] + ws)[1..] == ws;
  }

  /** The record built from a list of words holds lower-case words as command
      and sub-command and the remaining words as arguments. */
  lemma CommandOfWords(rest: seq<string>)
    requires rest != [] && forall k :: 0 <= k < |rest| ==> IsWord(rest[k])
    ensures var c := CommandOf(rest);
      && IsWord(c.cmd) && LowerStr(c.cmd) == c.cmd
      && (c.subCmd.Some? ==> IsWord(c.subCmd.value) && LowerStr(c.subCmd.value) == c.subCmd.value)
      && forall k :: 0 <= k < |c.args| ==> IsWord(c.args[k])
  {
    LowerKeepsWord(rest[0]);
    LowerIsIdempotent(rest[0]);
    if |rest| > 1 {
      LowerKeepsWord(rest[1]);
      LowerIsIdempotent(rest[1]);
    }
  }

  /** A parsed command is normalised: `cmd` and `sub_cmd` are lower-case words
      and the arguments are words kept with their case. */
  lemma {:induction false} ParsedCommandShape(text: string, c: Command)
    requires FromText(text) == Parsed(c)
    ensures IsWord(c.cmd) && LowerStr(c.cmd) == c.cmd
    ensures c.subCmd.Some? ==> IsWord(c.subCmd.value) && LowerStr(c.subCmd.value) == c.subCmd.value
    ensures forall k :: 0 <= k < |c.args| ==> IsWord(c.args[k])
  {
    ParsedFrom(text, c);
    SplitWords(text);
    WordsTail(Split(text));
    CommandOfWords(Split(text)[1..]);
  }

  /** Splitting `raw_cmd` again yields exactly the words after the mention,
      from which the command, sub-command and arguments are read. */
  lemma {:induction false} RawCmdResplits(text: string, c: Command)
    requires FromText(text) == Parsed(c)
    ensures Split(c.rawCmd) == Split(text)[1..]
    ensures c.cmd == LowerStr(Split(c.rawCmd)[0])
    ensures c.subCmd.None? <==> |Split(c.rawCmd)| == 1
    ensures c.args == (if |Split(c.rawCmd)| > 2 then Split(c.rawCmd)[2..] else [])
  {
    var rest := Split(text)[1..];
    ParsedFrom(text, c);
    SplitWords(text);
    WordsTail(Split(text));
    SplitJoin(rest);
  }

  /** A mention followed by words, separated by single spaces, parses into
      those words: the first lower-cased as the command, the second
      lower-cased as the sub-command, the rest verbatim as arguments. */
  lemma {:induction false} FromTextOfWords(mention: string, ws: seq<string>)
    requires IsWord(mention) && IsUserMention(mention)
    requires ws != [] && forall k :: 0 <= k < |ws| ==> IsWord(ws[k])
    ensures FromText(Join([mention] + ws, " ")) ==
              Parsed(Command(Join(ws, " "), LowerStr(ws[0]),
                             if |ws| > 1 then Some(LowerStr(ws[1])) else None,
                             if |ws| > 2 then ws[2..] else []))
  {
    var all := [mention] + ws;
    assert all[1..] == ws;
    WordsCons(mention, ws);
    SplitJoin(all);
  }

  /** Re-parsing `raw_cmd` behind any mention gives the same command back:
      `raw_cmd` carries everything the parser extracted. */
  lemma {:induction false} ReparseRawCmd(text: string, c: Command, mention: string)
    requires FromText(text) == Parsed(c)
    requires IsWord(mention) && IsUserMention(mention)
    ensures FromText(mention + " " + c.rawCmd) == Parsed(c)
  {
    var rest := Split(text)[1..];
    ParsedFrom(text, c);
    SplitWords(text);
    WordsTail(Split(text));
    JoinCons(mention, rest, " ");
    FromTextOfWords(mention, rest);
  }
}
