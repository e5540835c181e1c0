/**
 * The pin and poll handlers of `app_mention`, over the pin store and over
 * the answers of the Slack Web API, which are inputs here.
 *
 * A handler returns its status dict (`Returned`) or raises (`Raised`, with
 * the text of the exception). `CommandError`s carry the bot's own messages;
 * the other exceptions a handler can run into carry Python's wording.
 */
module PinHandlers {
  import opened Common
  import opened Text
  import opened DataInterface
  import Commands
  import Permalinks

  /** The fields of an `app_mention` event the bot reads. */
  datatype Event = Event(subtype: Option<string>, text: Option<string>, channel: string, user: string, ts: string)

  /** One line of the "Top Users" board: user, number of pins, avatar URL. */
  datatype UserRank = UserRank(user: string, pins: int, avatar: string)

  /** One line of the "Top Reactions" board. */
  datatype ReactionRank = ReactionRank(user: string, reactions: int, message: string, avatar: string)

  /** What the block kit message of `pin stats` shows. */
  datatype StatsReport = StatsReport(topUsers: seq<UserRank>, topReactions: seq<ReactionRank>)

  /** A handler's status dict: a `message`, `blocks`, or neither key. */
  datatype Status = Reply(text: string) | ReplyBlocks(report: StatsReport) | NoReply

  datatype HandlerResult = Returned(status: Status) | Raised(error: string)

  // The texts of the Python exceptions the handlers can run into.
  const IndexErrorText := "list index out of range"
  const UnboundHistoryText := "local variable 'pin_msg_details' referenced before assignment"
  const UnboundPermalinkText := "local variable 'permalink' referenced before assignment"
  const NoneChannelText := "'NoneType' object has no attribute 'channel'"

  // ---- pin, pin any, pin channel ----------------------------------------

  /** `_cmd_pin`: a random pin of the channel the mention came from. */
  method PinHere(store: PinStore, ev: Event) returns (res: HandlerResult)
    ensures res.Raised? <==> forall i :: 0 <= i < |store.rows| ==> !SameChannel(store.rows[i].channel, ev.channel)
    ensures res.Raised? ==> res.error == "No pins found"
    ensures res.Returned? ==> exists i :: 0 <= i < |store.rows| && SameChannel(store.rows[i].channel, ev.channel) &&
                                         res.status == Reply(store.rows[i].permalink)
  {
    var message := store.GetRandomPin(Some(ev.channel));
    if message.None? {
      return Raised("No pins found");
    }
    res := Returned(Reply(message.value.permalink));
  }

  /** `_cmd_pin_any`: a random pin from any channel. */
  method PinAny(store: PinStore) returns (res: HandlerResult)
    ensures res.Raised? <==> store.rows == []
    ensures res.Raised? ==> res.error == "No pins found"
    ensures res.Returned? ==> exists i :: 0 <= i < |store.rows| && res.status == Reply(store.rows[i].permalink)
  {
    var message := store.GetRandomPin(None);
    if message.None? {
      return Raised("No pins found");
    }
    res := Returned(Reply(message.value.permalink));
  }

  /** `s.split('|')[0]`: everything before the first bar. */
  function BeforeBar(s: string): (r: string)
    ensures '|' !in r && r <= s
  {
    if s == [] || s[0] == '|' then [] else [s[0]] + BeforeBar(s[1..])
  }

  /** `arg.split('|')[0][2:]`: the channel id in a `<#id|name>` reference. */
  function ChannelIdOf(arg: string): string {
    var head := BeforeBar(arg);
    if |head| <= 2 then [] else head[2..]
  }

  /** A channel reference as Slack writes it yields the id inside it. */
  lemma ChannelIdOfReference(id: string, name: string)
    requires '|' !in id
    ensures ChannelIdOf("<#" + id + "|" + name + ">") == id
  {
    BeforeBarOf("<#" + id, name + ">");
    assert "<#" + id + "|" + name + ">" == ("<#" + id) + "|" + (name + ">");
    assert ("<#" + id)[2..] == id;
  }

  lemma {:induction false} BeforeBarOf(w: string, rest: string)
    requires '|' !in w
    ensures BeforeBar(w + "|" + rest) == w
  {
    if w != [] {
      assert (w + "|" + rest)[1..] == w[1..] + "|" + rest;
      BeforeBarOf(w[1..], rest);
    }
  }

  /** `_cmd_pin_channel`: a random pin of the channel named by the first
      argument; when there is none, the error says whether the channel
      exists, going by the ids `conversations_list` returned. */
  method PinChannel(store: PinStore, command: Commands.Command, channelIds: seq<string>) returns (res: HandlerResult)
    ensures command.args == [] ==> res == Raised(IndexErrorText)
    ensures command.args != [] ==>
      var id := ChannelIdOf(command.args[0]);
      && (res.Raised? <==> forall i :: 0 <= i < |store.rows| ==> !SameChannel(store.rows[i].channel, id))
      && (res.Raised? ==> res.error == if id in channelIds then "No pins found" else "Channel `" + command.args[0] + "` not found")
      && (res.Returned? ==> exists i :: 0 <= i < |store.rows| && SameChannel(store.rows[i].channel, id) &&
                                        res.status == Reply(store.rows[i].permalink))
  {
    if |command.args| == 0 {
      return Raised(IndexErrorText);
    }
    var channelId := ChannelIdOf(command.args[0]);
    var message := store.GetRandomPin(Some(channelId));
    if message.None? {
      if channelId !in channelIds {
        return Raised("Channel `" + command.args[0] + "` not found");
      } else {
        return Raised("No pins found");
      }
    }
    res := Returned(Reply(message.value.permalink));
  }

  // ---- pin add, pin remove -----------------------------------------------

  /** `conversations_history` for one message (channel, timestamp): None when
      the API call fails, else the JSON of the messages it returned. */
  type History = (string, string) -> Option<seq<string>>

  /** What `_cmd_pin_add` stores as the message: the first message found, or "{}". */
  function MessageJson(found: seq<string>): string {
    if |found| == 0 then "{}" else found[0]
  }

  /** `_cmd_pin_add`. Every failure leaves the store as it was; success adds
      exactly one row, keyed by the permalink's channel and timestamp. */
  method PinAdd(store: PinStore, command: Commands.Command, ev: Event, history: History) returns (res: HandlerResult)
    requires store.Valid()
    modifies store
    ensures store.Valid()
    ensures command.args == [] ==> res == Raised("Need a permalink to pin") && store.rows == old(store.rows)
    ensures command.args != [] && Permalinks.FromText(command.args[0]).None? ==>
              res == Raised(command.args[0] + " does not seem like a valid permalink") && store.rows == old(store.rows)
    ensures command.args != [] && Permalinks.FromText(command.args[0]).Some? ==>
      var p := Permalinks.FromText(command.args[0]).value;
      if Lookup(old(store.rows), p.channel, p.timestamp).Some? then
        res == Raised("Message is already pinned") && store.rows == old(store.rows)
      else if history(p.channel, p.timestamp).None? then
        res == Raised(UnboundHistoryText) && store.rows == old(store.rows)
      else
        && res == Returned(Reply(":white_check_mark: Successfully added pin"))
        && store.rows == old(store.rows) +
             [PinRow(ev.user, p.channel, p.timestamp, MessageJson(history(p.channel, p.timestamp).value), command.args[0])]
  {
    if |command.args| == 0 {
      return Raised("Need a permalink to pin");
    }
    var permalink := Permalinks.FromText(command.args[0]);
    if permalink.None? {
      return Raised(command.args[0] + " does not seem like a valid permalink");
    } else if store.GetPin(permalink.value.channel, permalink.value.timestamp).Some? {
      return Raised("Message is already pinned");
    }
    var p := permalink.value;
    var details := history(p.channel, p.timestamp);
    if details.None? {
      return Raised(UnboundHistoryText);
    }
    var messageJson := MessageJson(details.value);
    store.InsertPin(ev.user, p.channel, p.timestamp, messageJson, command.args[0]);
    res := Returned(Reply(":white_check_mark: Successfully added pin"));
  }

  /** `_cmd_pin_remove`. Every failure leaves the store as it was; success
      deletes the pin of the permalink's message. */
  method PinRemove(store: PinStore, command: Commands.Command) returns (res: HandlerResult)
    requires store.Valid()
    modifies store
    ensures store.Valid()
    ensures command.args == [] ==> res == Raised("Need a permalink to remove") && store.rows == old(store.rows)
    ensures command.args != [] && Permalinks.FromText(command.args[0]).None? ==>
              res == Raised("Message does not seem like a valid permalink") && store.rows == old(store.rows)
    ensures command.args != [] && Permalinks.FromText(command.args[0]).Some? ==>
      var p := Permalinks.FromText(command.args[0]).value;
      if Lookup(old(store.rows), p.channel, p.timestamp).None? then
        res == Raised("No matching pin found") && store.rows == old(store.rows)
      else
        && res == Returned(Reply(":white_check_mark: Successfully removed pin"))
        && store.rows == Removed(old(store.rows), p.channel, p.timestamp)
        && Lookup(store.rows, p.channel, p.timestamp).None?
  {
    if |command.args| == 0 {
      return Raised("Need a permalink to remove");
    }
    var permalink := Permalinks.FromText(command.args[0]);
    if permalink.None? {
      return Raised("Message does not seem like a valid permalink");
    } else if store.GetPin(permalink.value.channel, permalink.value.timestamp).None? {
      return Raised("No matching pin found");
    }
    var p := permalink.value;
    RemovedLookup(store.rows, p.channel, p.timestamp, p.channel, p.timestamp);
    store.RemovePin(p.channel, p.timestamp);
    res := Returned(Reply(":white_check_mark: Successfully removed pin"));
  }

  // ---- pin load ------------------------------------------------------------

  /** The kind of a pinned item `pins_list` returns, with what the loop reads of it. */
  datatype PinKind = MessagePin | FilePin(pinnedTo: seq<string>, timestamp: string) | OtherPin

  /** A pinned item: its kind, the `permalink` of its payload and the payload's JSON. */
  datatype PinItem = PinItem(kind: PinKind, permalink: string, json: string)

  /** The loop variables `channel`, `timestamp` and `permalink` of
      `_cmd_pin_load`, which keep their values from one item to the next.
      `channel` and `timestamp` are bound whenever `permalink` is. */
  datatype LoopVars = Unbound | Bound(channel: string, timestamp: string, link: Permalinks.Permalink)

  datatype LoadState = LoadState(rows: seq<PinRow>, vars: LoopVars, added: nat, ignored: nat)

  /** How the loop ends: after the last item, or at an exception (the rows
      inserted before it stay). */
  datatype LoadRun = Finished(state: LoadState) | Stopped(rows: seq<PinRow>, error: string)

  /** The end of one iteration: the store is asked for the pin of the message
      `permalink` names and, when it has none, the item is inserted under
      `channel` and `timestamp`. */
  function Decide(st: LoadState, vars: LoopVars, item: PinItem, user: string): LoadRun
    requires vars.Bound?
  {
    if Lookup(st.rows, vars.link.channel, vars.link.timestamp).None? then
      Finished(LoadState(Inserted(st.rows, PinRow(user, vars.channel, vars.timestamp, item.json, item.permalink)),
                         vars, st.added + 1, st.ignored))
    else
      Finished(LoadState(st.rows, vars, st.added, st.ignored + 1))
  }

  /** One iteration of the loop of `_cmd_pin_load`. */
  function LoadStep(st: LoadState, item: PinItem, user: string): LoadRun
  {
    match item.kind
    case MessagePin =>
      (match Permalinks.FromText(item.permalink)
       case None => Stopped(st.rows, NoneChannelText)
       case Some(p) => Decide(st, Bound(p.channel, p.timestamp, p), item, user))
    case FilePin(pinnedTo, timestamp) =>
      if pinnedTo == [] then Stopped(st.rows, IndexErrorText)
      else if st.vars.Unbound? then Stopped(st.rows, UnboundPermalinkText)
      else Decide(st, Bound(pinnedTo[0], timestamp, st.vars.link), item, user)
    case OtherPin =>
      if st.vars.Unbound? then Stopped(st.rows, UnboundPermalinkText)
      else Decide(st, st.vars, item, user)
  }

  /** The loop of `_cmd_pin_load` over the remaining items. */
  function LoadFrom(st: LoadState, items: seq<PinItem>, user: string): LoadRun
    decreases |items|
  {
    if items == [] then Finished(st)
    else
      match LoadStep(st, items[0], user)
      case Stopped(rows, e) => Stopped(rows, e)
      case Finished(next) => LoadFrom(next, items[1..], user)
  }

  function LoadedMessage(added: nat, ignored: nat): string {
    ":white_check_mark: Successfully loaded " + NatStr(added) + " pins and ignored " + NatStr(ignored) + " pins"
  }

  /** Every item is either counted as added or as ignored, rows are only
      ever appended, and no more rows than items counted as added. */
  lemma {:induction false} LoadCounts(st: LoadState, items: seq<PinItem>, user: string)
    ensures LoadFrom(st, items, user).Finished? ==>
      var fin := LoadFrom(st, items, user).state;
      && fin.added + fin.ignored == st.added + st.ignored + |items|
      && st.added <= fin.added
      && st.rows <= fin.rows && |fin.rows| <= |st.rows| + (fin.added - st.added)
    ensures LoadFrom(st, items, user).Stopped? ==> st.rows <= LoadFrom(st, items, user).rows
    decreases |items|
  {
    if items != [] {
      var step := LoadStep(st, items[0], user);
      LoadFromCons(st, items, user);
      StepCounts(st, items[0], user);
      if step.Finished? {
        LoadCounts(step.state, items[1..], user);
      }
    }
  }

  /** One decision counts the item once and adds at most the one row. */
  lemma DecideCounts(st: LoadState, vars: LoopVars, item: PinItem, user: string)
    requires vars.Bound?
    ensures var fin := Decide(st, vars, item, user).state;
      && fin.added + fin.ignored == st.added + st.ignored + 1
      && st.added <= fin.added
      && st.rows <= fin.rows && |fin.rows| <= |st.rows| + (fin.added - st.added)
  {
  }

  /** One iteration counts the item once, or stops with the rows unchanged. */
  lemma StepCounts(st: LoadState, item: PinItem, user: string)
    ensures LoadStep(st, item, user).Finished? ==>
      var fin := LoadStep(st, item, user).state;
      && fin.added + fin.ignored == st.added + st.ignored + 1
      && st.added <= fin.added
      && st.rows <= fin.rows && |fin.rows| <= |st.rows| + (fin.added - st.added)
    ensures LoadStep(st, item, user).Stopped? ==> LoadStep(st, item, user).rows == st.rows
  {
    match item.kind {
      case MessagePin =>
        var link := Permalinks.FromText(item.permalink);
        if link.Some? {
          DecideCounts(st, Bound(link.value.channel, link.value.timestamp, link.value), item, user);
        }
      case FilePin(pinnedTo, timestamp) =>
        if pinnedTo != [] && st.vars.Bound? {
          DecideCounts(st, Bound(pinnedTo[0], timestamp, st.vars.link), item, user);
        }
      case OtherPin =>
        if st.vars.Bound? {
          DecideCounts(st, st.vars, item, user);
        }
    }
  }

  /** Loading pins keeps the store's keys unique. */
  lemma {:induction false} LoadKeepsUnique(st: LoadState, items: seq<PinItem>, user: string)
    requires UniqueKeys(st.rows)
    ensures LoadFrom(st, items, user).Finished? ==> UniqueKeys(LoadFrom(st, items, user).state.rows)
    ensures LoadFrom(st, items, user).Stopped? ==> UniqueKeys(LoadFrom(st, items, user).rows)
    decreases |items|
  {
    if items != [] {
      var step := LoadStep(st, items[0], user);
      var item := items[0];
      if item.kind.MessagePin? && Permalinks.FromText(item.permalink).Some? {
        var p := Permalinks.FromText(item.permalink).value;
        InsertedKeepsUnique(st.rows, PinRow(user, p.channel, p.timestamp, item.json, item.permalink));
      } else if item.kind.FilePin? && item.kind.pinnedTo != [] && st.vars.Bound? {
        InsertedKeepsUnique(st.rows, PinRow(user, item.kind.pinnedTo[0], item.kind.timestamp, item.json, item.permalink));
      } else if item.kind.OtherPin? && st.vars.Bound? {
        InsertedKeepsUnique(st.rows, PinRow(user, st.vars.channel, st.vars.timestamp, item.json, item.permalink));
      }
      if step.Finished? {
        LoadKeepsUnique(step.state, items[1..], user);
      }
    }
  }

  /** The item is a message pin with a well-formed permalink. */
  predicate IsMessageLink(item: PinItem) {
    item.kind.MessagePin? && Permalinks.FromText(item.permalink).Some?
  }

  /** The store holds a pin for the message the item's permalink names. */
  predicate HasPinFor(rows: seq<PinRow>, item: PinItem) {
    match Permalinks.FromText(item.permalink)
    case None => false
    case Some(p) => Lookup(rows, p.channel, p.timestamp).Some?
  }

  /** When every pinned item is a message with a well-formed permalink, the
      load runs to the end and afterwards every one of those messages has a
      pin in the store. */
  lemma {:induction false} LoadStoresMessagePins(st: LoadState, items: seq<PinItem>, user: string)
    requires forall k :: 0 <= k < |items| ==> IsMessageLink(items[k])
    ensures LoadFrom(st, items, user).Finished?
    ensures forall k :: 0 <= k < |items| ==> HasPinFor(LoadFrom(st, items, user).state.rows, items[k])
    decreases |items|
  {
    if items != [] {
      var item := items[0];
      LoadStepOfMessage(st, item, user);
      var next := LoadStep(st, item, user).state;
      var tail := items[1..];
      LoadFromCons(st, items, user);
      assert LoadFrom(st, items, user) == LoadFrom(next, tail, user);
      assert forall k :: 0 <= k < |tail| ==> IsMessageLink(tail[k]) by {
        assert forall k :: 0 <= k < |tail| ==> tail[k] == items[k + 1];
      }
      LoadStoresMessagePins(next, tail, user);
      LoadKeepsPin(next, tail, user, item);
      var rows := LoadFrom(next, tail, user).state.rows;
      forall k | 0 <= k < |items|
        ensures HasPinFor(rows, items[k])
      {
        if k > 0 {
          assert items[k] == tail[k - 1];
        }
      }
    }
  }

  lemma LoadStepOfMessage(st: LoadState, item: PinItem, user: string)
    requires IsMessageLink(item)
    ensures LoadStep(st, item, user).Finished?
    ensures HasPinFor(LoadStep(st, item, user).state.rows, item)
  {
    var p := Permalinks.FromText(item.permalink).value;
    InsertedLookup(st.rows, PinRow(user, p.channel, p.timestamp, item.json, item.permalink), p.channel, p.timestamp);
  }

  /** A pin that is in the store stays there while pins are loaded. */
  lemma {:induction false} LoadKeepsPin(st: LoadState, items: seq<PinItem>, user: string, pinned: PinItem)
    requires HasPinFor(st.rows, pinned)
    ensures LoadFrom(st, items, user).Finished? ==> HasPinFor(LoadFrom(st, items, user).state.rows, pinned)
    decreases |items|
  {
    if items != [] {
      var step := LoadStep(st, items[0], user);
      LoadFromCons(st, items, user);
      if step.Finished? {
        var p := Permalinks.FromText(pinned.permalink).value;
        StepKeepsLookup(st, items[0], user, p.channel, p.timestamp);
        LoadKeepsPin(step.state, items[1..], user, pinned);
      }
    }
  }

  /** An insert keeps every key that was present. */
  lemma DecideKeepsLookup(st: LoadState, vars: LoopVars, item: PinItem, user: string, channel: string, timestamp: string)
    requires vars.Bound?
    requires Lookup(st.rows, channel, timestamp).Some?
    ensures Lookup(Decide(st, vars, item, user).state.rows, channel, timestamp).Some?
  {
    if Lookup(st.rows, vars.link.channel, vars.link.timestamp).None? {
      var row := PinRow(user, vars.channel, vars.timestamp, item.json, item.permalink);
      if Lookup(st.rows, row.channel, row.timestamp).None? {
        LookupAppend(st.rows, row, channel, timestamp);
      }
    }
  }

  /** One iteration keeps every key that was present. */
  lemma StepKeepsLookup(st: LoadState, item: PinItem, user: string, channel: string, timestamp: string)
    requires Lookup(st.rows, channel, timestamp).Some?
    ensures LoadStep(st, item, user).Finished? ==> Lookup(LoadStep(st, item, user).state.rows, channel, timestamp).Some?
  {
    match item.kind {
      case MessagePin =>
        var link := Permalinks.FromText(item.permalink);
        if link.Some? {
          DecideKeepsLookup(st, Bound(link.value.channel, link.value.timestamp, link.value), item, user, channel, timestamp);
        }
      case FilePin(pinnedTo, timestamp') =>
        if pinnedTo != [] && st.vars.Bound? {
          DecideKeepsLookup(st, Bound(pinnedTo[0], timestamp', st.vars.link), item, user, channel, timestamp);
        }
      case OtherPin =>
        if st.vars.Bound? {
          DecideKeepsLookup(st, st.vars, item, user, channel, timestamp);
        }
    }
  }

  /** One step of the loop, unfolded. */
  lemma LoadFromCons(st: LoadState, items: seq<PinItem>, user: string)
    requires items != []
    ensures LoadStep(st, items[0], user).Stopped? ==>
      LoadFrom(st, items, user) == Stopped(LoadStep(st, items[0], user).rows, LoadStep(st, items[0], user).error)
    ensures LoadStep(st, items[0], user).Finished? ==>
      LoadFrom(st, items, user) == LoadFrom(LoadStep(st, items[0], user).state, items[1..], user)
  {
  }

  /** One iteration of the loop of `_cmd_pin_load`: bind the loop variables
      from the item, then look the pin up and insert it when it is new. */
  method LoadItem(store: PinStore, vars: LoopVars, added: nat, ignored: nat, item: PinItem, user: string)
    returns (err: Option<string>, vars': LoopVars, added': nat, ignored': nat)
    requires store.Valid()
    modifies store
    ensures store.Valid()
    ensures LoadStep(LoadState(old(store.rows), vars, added, ignored), item, user).Stopped? <==> err.Some?
    ensures err.Some? ==> LoadStep(LoadState(old(store.rows), vars, added, ignored), item, user)
                            == Stopped(store.rows, err.value)
    ensures err.None? ==> LoadStep(LoadState(old(store.rows), vars, added, ignored), item, user)
                            == Finished(LoadState(store.rows, vars', added', ignored'))
  {
    ghost var st := LoadState(store.rows, vars, added, ignored);
    vars', added', ignored' := vars, added, ignored;
    match item.kind {
      case MessagePin =>
        var permalink := Permalinks.FromText(item.permalink);
        if permalink.None? {
          return Some(NoneChannelText), vars', added', ignored';
        }
        vars' := Bound(permalink.value.channel, permalink.value.timestamp, permalink.value);
      case FilePin(pinnedTo, timestamp) =>
        if |pinnedTo| == 0 {
          return Some(IndexErrorText), vars', added', ignored';
        }
        if vars.Unbound? {
          return Some(UnboundPermalinkText), vars', added', ignored';
        }
        vars' := Bound(pinnedTo[0], timestamp, vars.link);
      case OtherPin =>
        if vars.Unbound? {
          return Some(UnboundPermalinkText), vars', added', ignored';
        }
    }
    assert LoadStep(st, item, user) == Decide(st, vars', item, user);
    var found := store.GetPin(vars'.link.channel, vars'.link.timestamp);
    if found.None? {
      store.InsertPin(user, vars'.channel, vars'.timestamp, item.json, item.permalink);
      added' := added + 1;
    } else {
      ignored' := ignored + 1;
    }
    err := None;
  }

  /** `_cmd_pin_load` over the items `pins_list` returned for the channel. */
  method PinLoad(store: PinStore, ev: Event, items: seq<PinItem>) returns (res: HandlerResult)
    requires store.Valid()
    modifies store
    ensures store.Valid()
    ensures match LoadFrom(LoadState(old(store.rows), Unbound, 0, 0), items, ev.user)
            case Finished(st) => store.rows == st.rows && res == Returned(Reply(LoadedMessage(st.added, st.ignored)))
            case Stopped(rows, e) => store.rows == rows && res == Raised(e)
  {
    ghost var run := LoadFrom(LoadState(store.rows, Unbound, 0, 0), items, ev.user);
    var addedCount: nat := 0;
    var ignoredCount: nat := 0;
    var vars: LoopVars := Unbound;
    var i := 0;
    while i < |items|
      invariant 0 <= i <= |items|
      invariant store.Valid()
      invariant LoadFrom(LoadState(store.rows, vars, addedCount, ignoredCount), items[i..], ev.user) == run
    {
      ghost var st := LoadState(store.rows, vars, addedCount, ignoredCount);
      assert items[i..][0] == items[i] && items[i..][1..] == items[i + 1..];
      LoadFromCons(st, items[i..], ev.user);
      var err;
      err, vars, addedCount, ignoredCount := LoadItem(store, vars, addedCount, ignoredCount, items[i], ev.user);
      if err.Some? {
        assert run == Stopped(store.rows, err.value);
        return Raised(err.value);
      }
      assert LoadFrom(LoadState(store.rows, vars, addedCount, ignoredCount), items[i + 1..], ev.user) == run;
      i := i + 1;
    }
    assert items[i..] == [];
    res := Returned(Reply(LoadedMessage(addedCount, ignoredCount)));
  }

  // ---- poll react --------------------------------------------------------

  /** A `reactions_add` call: channel, message timestamp, emoji name. */
  datatype Reaction = Reaction(channel: string, timestamp: string, name: string)

  /** `_cmd_poll_react`: the reactions it adds to the mention itself, in
      order; its status has no key, so nothing is said. */
  function PollReact(ev: Event): (r: (seq<Reaction>, HandlerResult))
    ensures r.1 == Returned(NoReply)
    ensures |r.0| == 4 && forall k :: 0 <= k < 4 ==> r.0[k].channel == ev.channel && r.0[k].timestamp == ev.ts
    ensures [r.0[0].name, r.0[1].name, r.0[2].name, r.0[3].name] == ["one", "two", "wastebasket", "put_litter_in_its_place"]
  {
    ([Reaction(ev.channel, ev.ts, "one"), Reaction(ev.channel, ev.ts, "two"),
      Reaction(ev.channel, ev.ts, "wastebasket"), Reaction(ev.channel, ev.ts, "put_litter_in_its_place")],
     Returned(NoReply))
  }
}
