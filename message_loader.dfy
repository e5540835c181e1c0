/**
 * Record normalisation of the nightly message loader (`message_loader.py`):
 * a fetched message lacking one of the required fields is dropped, a
 * complete one becomes an archive row with a permalink built from its
 * timestamp. The generic part (stepping through messages, stopping at the
 * first exception) is shared with the export loader.
 */
module MessageLoader {
  import opened Common
  import opened Text
  import opened DataInterface
  import Permalinks

  // ---- raw messages --------------------------------------------------------

  /** `user_profile`: `name` is None when that key is absent. */
  datatype Profile = Profile(name: Option<string>)

  /** A message as the Slack API or an export file gives it; a field is None
      when its key is absent. Other keys are never read. */
  datatype RawMessage = RawMessage(ts: Option<string>, user: Option<string>, text: Option<string>,
                                   profile: Option<Profile>)

  /** `required_fields`. */
  const RequiredFields: seq<string> := ["ts", "user", "text"]

  /** `key in message.keys()`, for the keys the loaders look for. */
  predicate HasKey(m: RawMessage, key: string) {
    || (key == "ts" && m.ts.Some?)
    || (key == "user" && m.user.Some?)
    || (key == "text" && m.text.Some?)
  }

  predicate Complete(m: RawMessage) {
    m.ts.Some? && m.user.Some? && m.text.Some?
  }

  /** `[key for key in keys if key not in message.keys()]`. */
  function MissingFrom(keys: seq<string>, m: RawMessage): (r: seq<string>)
    ensures |r| <= |keys|
    ensures forall k :: k in r <==> k in keys && !HasKey(m, k)
    ensures r == [] <==> forall k :: k in keys ==> HasKey(m, k)
  {
    if keys == [] then []
    else (if HasKey(m, keys[0]) then [] else [keys[0]]) + MissingFrom(keys[1..], m)
  }

  function MissingKeys(m: RawMessage): seq<string> {
    MissingFrom(RequiredFields, m)
  }

  /** No key is missing exactly when the message has all three fields. */
  lemma MissingKeysEmpty(m: RawMessage)
    ensures MissingKeys(m) == [] <==> Complete(m)
    ensures "ts" in MissingKeys(m) <==> m.ts.None?
  {
    assert "ts" in RequiredFields && "user" in RequiredFields && "text" in RequiredFields;
    assert forall k :: k in RequiredFields ==> k == "ts" || k == "user" || k == "text";
    if !Complete(m) {
      if m.ts.None? {
        assert "ts" in MissingKeys(m);
      } else if m.user.None? {
        assert "user" in MissingKeys(m);
      } else {
        assert "text" in MissingKeys(m);
      }
    }
  }

  /** The outcome of `resolve_missing_keys`. */
  datatype Checked =
    | Dropped                    // `None`
    | Kept(message: RawMessage)  // the message, with `user_profile` defaulted
    | KeyError(key: string)      // the debug line reads `message['ts']`

  const DefaultProfile := Profile(Some("Unknown"))

  /** `resolve_missing_keys`, the same code in both loaders. */
  function ResolveMissingKeys(m: RawMessage): (c: Checked)
    ensures c.KeyError? <==> m.ts.None?
    ensures c.KeyError? ==> c.key == "ts"
    ensures c.Dropped? <==> m.ts.Some? && (m.user.None? || m.text.None?)
    ensures c.Kept? <==> Complete(m)
    ensures c.Kept? ==> && c.message.ts == m.ts && c.message.user == m.user && c.message.text == m.text
                        && c.message.profile == (if m.profile.Some? then m.profile else Some(DefaultProfile))
  {
    MissingKeysEmpty(m);
    if |MissingKeys(m)| > 0 then
      if m.ts.None? then KeyError("ts") else Dropped
    else if m.profile.None? then Kept(m.(profile := Some(DefaultProfile)))
    else Kept(m)
  }

  /** `str` of a `KeyError` raised for `key`, for a key without `'`, `\`
      or non-printable characters (Slack ids and channel names); for other
      keys Python's `repr` quotes or escapes differently. */
  function KeyErrorText(key: string): string {
    "'" + key + "'"
  }

  // ---- permalinks --------------------------------------------------------------

  /** `f"{PERMALINK_BASE_URL}/{channel_id}/p{ts.replace('.', '')}"`. */
  function MessagePermalink(base: string, channelId: string, ts: string): string {
    base + "/" + channelId + "/p" + Remove(ts, '.')
  }

  /** A Slack timestamp: ten digits, a dot, six digits. */
  predicate SlackTimestamp(ts: string) {
    |ts| == 17 && ts[10] == '.' && Permalinks.AllDigits(ts[..10]) && Permalinks.AllDigits(ts[11..])
  }

  lemma {:induction false} DigitsOfTimestamp(ts: string)
    requires SlackTimestamp(ts)
    ensures Remove(ts, '.') == ts[..10] + ts[11..]
    ensures |Remove(ts, '.')| == 16 && Permalinks.AllDigits(Remove(ts, '.'))
  {
    assert ts == ts[..10] + "." + ts[11..];
    RemoveAppend(ts[..10] + ".", ts[11..], '.');
    RemoveAppend(ts[..10], ".", '.');
    RemoveAbsent(ts[..10], '.');
    RemoveAbsent(ts[11..], '.');
    var d := ts[..10] + ts[11..];
    forall i | 0 <= i < |d| ensures Permalinks.IsDigit(d[i]) {
      if i < 10 {
        assert d[i] == ts[..10][i];
      } else {
        assert d[i] == ts[11..][i - 10];
      }
    }
  }

  /** The permalink the loader stores for a message is recognised by the
      permalink parser, which finds the server and the channel, but the
      timestamp it reads back is not the message's: the first digit after
      the dot is lost and the string is one character short. */
  lemma PermalinkLosesTimestamp(server: string, channel: string, ts: string)
    requires server != [] && Permalinks.NoNewline(server) && Permalinks.NoSlash(server)
    requires channel != [] && Permalinks.NoNewline(channel) && Permalinks.NoSlash(channel)
    requires SlackTimestamp(ts)
    ensures var p := Permalinks.FromText(MessagePermalink("https://" + server + ".slack.com/archives", channel, ts));
      && p.Some? && p.value.server == server && p.value.channel == channel
      && p.value.timestamp == ts[..10] + "." + ts[12..]
      && p.value.timestamp != ts
  {
    var d := Remove(ts, '.');
    DigitsOfTimestamp(ts);
    assert MessagePermalink("https://" + server + ".slack.com/archives", channel, ts) ==
           Permalinks.SlackLink(server, channel, d);
    Permalinks.FromTextOfLink(server, channel, d);
    var t := Permalinks.TimestampFromDigits(d);
    assert t[..10] == ts[..10];
    assert t[11..] == d[11..] == ts[12..];
    assert t == t[..10] + [t[10]] + t[11..];
  }

  // ---- stepping through a list of messages --------------------------------------

  /** What one iteration of a normalising loop does with its message. */
  datatype Step<R> = Skip | Emit(row: R) | Fail(error: string)

  datatype Outcome<T> = Done(value: T) | Raised(error: string)

  /** The loop: rows appended in order, the first exception ends it. */
  function Collect<R>(steps: seq<Step<R>>): Outcome<seq<R>> {
    if steps == [] then Done([])
    else
      match Collect(steps[..|steps| - 1])
      case Raised(e) => Raised(e)
      case Done(rows) =>
        match steps[|steps| - 1]
        case Skip => Done(rows)
        case Emit(row) => Done(rows + [row])
        case Fail(e) => Raised(e)
  }

  /** The rows of the emitting steps, in order. */
  function Emitted<R>(steps: seq<Step<R>>): (rows: seq<R>)
    ensures |rows| <= |steps|
  {
    if steps == [] then []
    else (if steps[0].Emit? then [steps[0].row] else []) + Emitted(steps[1..])
  }

  predicate FirstFail<R>(steps: seq<Step<R>>, i: int) {
    0 <= i < |steps| && steps[i].Fail? && forall j :: 0 <= j < i ==> !steps[j].Fail?
  }

  lemma {:induction false} EmittedSnoc<R>(steps: seq<Step<R>>, s: Step<R>)
    ensures Emitted(steps + [s]) == Emitted(steps) + (if s.Emit? then [s.row] else [])
  {
    if steps != [] {
      assert (steps + [s])[1..] == steps[1..] + [s];
      EmittedSnoc(steps[1..], s);
    }
  }

  /** The loop runs to the end exactly when no step raises, and then returns
      the emitted rows; otherwise it raises the first step's exception. */
  lemma {:induction false} CollectMeaning<R>(steps: seq<Step<R>>)
    ensures Collect(steps).Done? <==> forall i :: 0 <= i < |steps| ==> !steps[i].Fail?
    ensures Collect(steps).Done? ==> Collect(steps).value == Emitted(steps)
    ensures forall i :: FirstFail(steps, i) ==> Collect(steps) == Raised(steps[i].error)
  {
    if steps != [] {
      var init, last := steps[..|steps| - 1], steps[|steps| - 1];
      assert steps == init + [last];
      CollectMeaning(init);
      EmittedSnoc(init, last);
      forall i | FirstFail(steps, i) ensures Collect(steps) == Raised(steps[i].error) {
        if i < |init| {
          assert FirstFail(init, i);
        }
      }
    }
  }

  /** A loop that got through the first `i` steps stops at a raising step `i`. */
  lemma CollectStopsAt<R>(steps: seq<Step<R>>, i: int)
    requires 0 <= i < |steps| && Collect(steps[..i]).Done? && steps[i].Fail?
    ensures Collect(steps) == Raised(steps[i].error)
  {
    CollectMeaning(steps[..i]);
    CollectMeaning(steps);
    assert forall j :: 0 <= j < i ==> steps[..i][j] == steps[j];
    assert FirstFail(steps, i);
  }

  /** One more step that does not raise appends its row, if any. */
  lemma CollectSnoc<R>(steps: seq<Step<R>>, i: int, rows: seq<R>)
    requires 0 <= i < |steps| && Collect(steps[..i]) == Done(rows) && !steps[i].Fail?
    ensures Collect(steps[..i + 1]) == Done(rows + if steps[i].Emit? then [steps[i].row] else [])
  {
    var p := steps[..i + 1];
    assert p[..|p| - 1] == steps[..i] && p[|p| - 1] == steps[i];
    if steps[i].Emit? {
      assert Collect(p) == Done(rows + [steps[i].row]);
    } else {
      assert rows + [] == rows;
    }
  }

  // ---- process_message_response --------------------------------------------------

  /** The archive row of a complete message whose author is known. */
  function ResponseRow(m: RawMessage, channelId: string, channelName: string, users: map<string, string>,
                       base: string): (row: MessageRow)
    requires Complete(m) && m.user.value in users
    ensures row.timestamp == m.ts.value && row.userId == m.user.value && row.message == m.text.value
    ensures row.channelId == channelId && row.channelName == channelName
    ensures row.userName == users[m.user.value]
    ensures row.permalink == MessagePermalink(base, channelId, m.ts.value)
  {
    MessageRow(m.ts.value, channelId, channelName, m.user.value, users[m.user.value], m.text.value,
               MessagePermalink(base, channelId, m.ts.value))
  }

  /** One iteration of `process_message_response`. */
  function ResponseStep(m: RawMessage, channelId: string, channelName: string, users: map<string, string>,
                        base: string): Step<MessageRow>
  {
    match ResolveMissingKeys(m)
    case KeyError(k) => Fail(KeyErrorText(k))
    case Dropped => Skip
    case Kept(k) =>
      if k.user.value in users then Emit(ResponseRow(k, channelId, channelName, users, base))
      else Fail(KeyErrorText(k.user.value))  // `users[message['user']]`
  }

  function ResponseSteps(ms: seq<RawMessage>, channelId: string, channelName: string, users: map<string, string>,
                         base: string): (steps: seq<Step<MessageRow>>)
    ensures |steps| == |ms| && forall i :: 0 <= i < |ms| ==> steps[i] == ResponseStep(ms[i], channelId, channelName, users, base)
  {
    seq(|ms|, i requires 0 <= i < |ms| => ResponseStep(ms[i], channelId, channelName, users, base))
  }

  /** `process_message_response`; `messages` is None when the response has
      no `messages` key. */
  function ResponseRecords(messages: Option<seq<RawMessage>>, channelId: string, channelName: string,
                           users: map<string, string>, base: string): Outcome<seq<MessageRow>>
  {
    if messages.None? then Done([])
    else Collect(ResponseSteps(messages.value, channelId, channelName, users, base))
  }

  /** The complete messages, in order. */
  function Passing(ms: seq<RawMessage>): (ps: seq<RawMessage>)
    ensures |ps| <= |ms|
    ensures forall k :: 0 <= k < |ps| ==> ps[k] in ms && Complete(ps[k])
  {
    if ms == [] then []
    else (if Complete(ms[0]) then [ms[0]] else []) + Passing(ms[1..])
  }

  /** The messages that pass are exactly the complete ones. */
  lemma {:induction false} PassingMembers(ms: seq<RawMessage>, m: RawMessage)
    ensures m in Passing(ms) <==> m in ms && Complete(m)
  {
    if ms != [] {
      PassingMembers(ms[1..], m);
      assert ms == [ms[0]] + ms[1..];
    }
  }

  /** A message that makes the loader raise: no `ts`, or a complete message
      whose author is not in the user list. */
  predicate Raises(m: RawMessage, users: map<string, string>) {
    m.ts.None? || (Complete(m) && m.user.value !in users)
  }

  /** A message that does not raise is skipped, or emits its row when complete. */
  lemma ResponseStepOf(m: RawMessage, channelId: string, channelName: string, users: map<string, string>,
                       base: string)
    requires !Raises(m, users)
    ensures Complete(m) ==> ResponseStep(m, channelId, channelName, users, base) ==
                              Emit(ResponseRow(m, channelId, channelName, users, base))
    ensures !Complete(m) ==> ResponseStep(m, channelId, channelName, users, base) == Skip
  {
  }

  /** The rows of messages that all pass, in order. */
  function ResponseRowsOf(ps: seq<RawMessage>, channelId: string, channelName: string, users: map<string, string>,
                          base: string): (rows: seq<MessageRow>)
    requires forall k :: 0 <= k < |ps| ==> Complete(ps[k]) && ps[k].user.value in users
    ensures |rows| == |ps|
    ensures forall k :: 0 <= k < |ps| ==> rows[k] == ResponseRow(ps[k], channelId, channelName, users, base)
  {
    if ps == [] then []
    else [ResponseRow(ps[0], channelId, channelName, users, base)]
         + ResponseRowsOf(ps[1..], channelId, channelName, users, base)
  }

  /** Without an exception, the loop emits the row of every complete message. */
  lemma {:induction false} EmittedResponse(ms: seq<RawMessage>, channelId: string, channelName: string,
                                           users: map<string, string>, base: string)
    requires forall m :: m in ms ==> !Raises(m, users)
    ensures forall k :: 0 <= k < |Passing(ms)| ==> Passing(ms)[k].user.value in users
    ensures Emitted(ResponseSteps(ms, channelId, channelName, users, base))
              == ResponseRowsOf(Passing(ms), channelId, channelName, users, base)
  {
    if ms != [] {
      var steps := ResponseSteps(ms, channelId, channelName, users, base);
      var tail := ResponseSteps(ms[1..], channelId, channelName, users, base);
      assert steps[1..] == tail;
      EmittedResponse(ms[1..], channelId, channelName, users, base);
      ResponseStepOf(ms[0], channelId, channelName, users, base);
      var ps := Passing(ms[1..]);
      if Complete(ms[0]) {
        assert Passing(ms) == [ms[0]] + ps;
        assert Passing(ms)[1..] == ps;
      } else {
        assert Passing(ms) == ps;
      }
    }
  }

  /** The records are exactly the complete messages, in order, each copied
      into a seven-field row; the loader raises when a message has no `ts`
      or names an unknown user, and a response without `messages` gives no
      records. */
  lemma ResponseRecordsMeaning(messages: Option<seq<RawMessage>>, channelId: string, channelName: string,
                               users: map<string, string>, base: string)
    ensures messages.None? ==> ResponseRecords(messages, channelId, channelName, users, base) == Done([])
    ensures messages.Some? ==>
      var ms := messages.value;
      var r := ResponseRecords(messages, channelId, channelName, users, base);
      && (r.Done? <==> forall m :: m in ms ==> !Raises(m, users))
      && (r.Done? ==> |r.value| == |Passing(ms)| <= |ms| &&
                      forall k :: 0 <= k < |r.value| ==>
                        r.value[k] == ResponseRow(Passing(ms)[k], channelId, channelName, users, base))
  {
    if messages.Some? {
      var ms := messages.value;
      var steps := ResponseSteps(ms, channelId, channelName, users, base);
      CollectMeaning(steps);
      assert forall i :: 0 <= i < |ms| ==> (steps[i].Fail? <==> Raises(ms[i], users));
      if forall m :: m in ms ==> !Raises(m, users) {
        EmittedResponse(ms, channelId, channelName, users, base);
      }
    }
  }

  /** Its exception is the one of the first message that raises. */
  lemma ResponseRecordsError(ms: seq<RawMessage>, channelId: string, channelName: string,
                             users: map<string, string>, base: string, i: int)
    requires 0 <= i < |ms| && Raises(ms[i], users) && forall j :: 0 <= j < i ==> !Raises(ms[j], users)
    ensures ResponseRecords(Some(ms), channelId, channelName, users, base) ==
              Raised(if ms[i].ts.None? then KeyErrorText("ts") else KeyErrorText(ms[i].user.value))
  {
    var steps := ResponseSteps(ms, channelId, channelName, users, base);
    CollectMeaning(steps);
    assert FirstFail(steps, i);
  }

  /** The loop of `process_message_response`. */
  method ProcessMessageResponse(messages: Option<seq<RawMessage>>, channelId: string, channelName: string,
                                users: map<string, string>, base: string) returns (r: Outcome<seq<MessageRow>>)
    ensures r == ResponseRecords(messages, channelId, channelName, users, base)
  {
    var ms := if messages.Some? then messages.value else [];
    ghost var steps := ResponseSteps(ms, channelId, channelName, users, base);
    var rows: seq<MessageRow> := [];
    var i := 0;
    while i < |ms|
      invariant 0 <= i <= |ms|
      invariant Collect(steps[..i]) == Done(rows)
    {
      var checked := ResolveMissingKeys(ms[i]);
      assert steps[i] == ResponseStep(ms[i], channelId, channelName, users, base);
      match checked {
        case KeyError(k) =>
          CollectStopsAt(steps, i);
          return Raised(KeyErrorText(k));
        case Dropped =>
          assert steps[i] == Skip;
          CollectSnoc(steps, i, rows);
          assert rows + [] == rows;
        case Kept(m) =>
          if m.user.value !in users {
            CollectStopsAt(steps, i);
            return Raised(KeyErrorText(m.user.value));
          }
          assert steps[i] == Emit(ResponseRow(m, channelId, channelName, users, base));
          CollectSnoc(steps, i, rows);
          rows := rows + [ResponseRow(m, channelId, channelName, users, base)];
      }
      assert Collect(steps[..i + 1]) == Done(rows);
      i := i + 1;
    }
    assert steps[..|ms|] == steps;
    return Done(rows);
  }
}
