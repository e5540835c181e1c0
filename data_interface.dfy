/**
 * The bot's store: the pins table with its five queries and the archived
 * messages with the two regex leaderboards.
 *
 * The tables are sequences of rows in insertion (`created_at`) order. The
 * regular-expression engine is a parameter: a `Pattern` gives, for a case
 * mode and a text, what `findall` returns; the SQL `REGEXP` function (a
 * `search` that is not None) holds exactly when that list is non-empty.
 */
module DataInterface {
  import opened Common
  import opened Text
  import opened Ranking

  // ---- regular expressions ----------------------------------------------

  /** `findall` of one compiled search expression: case mode, text -> matches. */
  type Pattern = (bool, string) -> seq<string>

  /** `regexp_ignore_case` / `regexp`: the expression is found somewhere in `item`. */
  predicate Regexp(pattern: Pattern, ignoreCase: bool, item: string) {
    pattern(ignoreCase, item) != []
  }

  // ---- the pins table ---------------------------------------------------

  /** One row of the pins table; the message document is kept as its JSON text. */
  datatype PinRow = PinRow(createdBy: string, channel: string, timestamp: string, json: string, permalink: string)

  /** What every pin query selects: channel, timestamp, message, permalink. */
  datatype Pin = Pin(channel: string, timestamp: string, json: string, permalink: string)

  function Selected(row: PinRow): Pin {
    Pin(row.channel, row.timestamp, row.json, row.permalink)
  }

  function SelectAll(rows: seq<PinRow>): (ps: seq<Pin>)
    ensures |ps| == |rows| && forall i :: 0 <= i < |rows| ==> ps[i] == Selected(rows[i])
  {
    seq(|rows|, i requires 0 <= i < |rows| => Selected(rows[i]))
  }

  lemma SelectAllMembers(rows: seq<PinRow>)
    ensures forall row :: row in rows ==> Selected(row) in SelectAll(rows)
    ensures forall p :: p in SelectAll(rows) ==> exists row :: row in rows && p == Selected(row)
  {
    forall p | p in SelectAll(rows) ensures exists row :: row in rows && p == Selected(row) {
      var k :| 0 <= k < |rows| && SelectAll(rows)[k] == p;
      assert rows[k] in rows;
    }
    forall row | row in rows ensures Selected(row) in SelectAll(rows) {
      var k :| 0 <= k < |rows| && rows[k] == row;
      assert SelectAll(rows)[k] == Selected(row);
    }
  }

  /** `channel COLLATE NOCASE = ?`: SQLite's NOCASE folds the ASCII letters only. */
  predicate SameChannel(a: string, b: string) {
    LowerStr(a) == LowerStr(b)
  }

  /** The row is the pin of message `timestamp` in `channel`. */
  predicate HasKey(row: PinRow, channel: string, timestamp: string) {
    SameChannel(row.channel, channel) && row.timestamp == timestamp
  }

  /** The uniqueness invariant of the table: one row per (channel, timestamp),
      the channel compared as the queries compare it. */
  ghost predicate UniqueKeys(rows: seq<PinRow>) {
    forall i, j :: 0 <= i < j < |rows| ==> !HasKey(rows[j], rows[i].channel, rows[i].timestamp)
  }

  /** The row `GET_PIN` fetches. */
  function Lookup(rows: seq<PinRow>, channel: string, timestamp: string): (r: Option<PinRow>)
    ensures r.None? <==> forall i :: 0 <= i < |rows| ==> !HasKey(rows[i], channel, timestamp)
    ensures r.Some? ==> r.value in rows && HasKey(r.value, channel, timestamp)
  {
    if rows == [] then None
    else if HasKey(rows[0], channel, timestamp) then Some(rows[0])
    else Lookup(rows[1..], channel, timestamp)
  }

  /** The rows a channel filter selects (`WHERE channel COLLATE NOCASE = ?`, or
      every row when no channel is given), in table order. */
  function InChannel(rows: seq<PinRow>, channel: Option<string>): (r: seq<PinRow>)
    ensures forall x :: x in r <==> x in rows && (channel.None? || SameChannel(x.channel, channel.value))
  {
    if rows == [] then []
    else if channel.None? || SameChannel(rows[0].channel, channel.value) then [rows[0]] + InChannel(rows[1..], channel)
    else InChannel(rows[1..], channel)
  }

  /** The filter keeps table order: a row added at the end is selected at the
      end, exactly when it is in the channel. */
  lemma {:induction false} InChannelAppend(rows: seq<PinRow>, row: PinRow, channel: Option<string>)
    ensures InChannel(rows + [row], channel) ==
            InChannel(rows, channel) + (if channel.None? || SameChannel(row.channel, channel.value) then [row] else [])
    decreases |rows|
  {
    if rows != [] {
      assert (rows + [row])[1..] == rows[1..] + [row];
      InChannelAppend(rows[1..], row, channel);
    }
  }

  /** Without a channel every row is selected, in table order. */
  lemma {:induction false} InChannelAll(rows: seq<PinRow>)
    ensures InChannel(rows, None) == rows
    decreases |rows|
  {
    if rows != [] {
      InChannelAll(rows[1..]);
    }
  }

  /** `INSERT or IGNORE`: a row whose key is taken is dropped. */
  function Inserted(rows: seq<PinRow>, row: PinRow): seq<PinRow> {
    if Lookup(rows, row.channel, row.timestamp).Some? then rows else rows + [row]
  }

  /** `REMOVE_PIN`: every row with the key is deleted, the others keep their order. */
  function Removed(rows: seq<PinRow>, channel: string, timestamp: string): (r: seq<PinRow>)
    ensures forall x :: x in r <==> x in rows && !HasKey(x, channel, timestamp)
  {
    if rows == [] then []
    else if HasKey(rows[0], channel, timestamp) then Removed(rows[1..], channel, timestamp)
    else [rows[0]] + Removed(rows[1..], channel, timestamp)
  }

  lemma InsertedKeepsUnique(rows: seq<PinRow>, row: PinRow)
    requires UniqueKeys(rows)
    ensures UniqueKeys(Inserted(rows, row))
  {
    if Lookup(rows, row.channel, row.timestamp).None? {
      var r := rows + [row];
      forall i, j | 0 <= i < j < |r| ensures !HasKey(r[j], r[i].channel, r[i].timestamp) {
        if j == |rows| {
          assert !HasKey(rows[i], row.channel, row.timestamp);
        }
      }
    }
  }

  /** After an insert the key is present, and its row is the one that was
      there before, if any: an insert never overwrites. Other keys are not
      affected. */
  lemma {:induction false} InsertedLookup(rows: seq<PinRow>, row: PinRow, channel: string, timestamp: string)
    ensures Lookup(Inserted(rows, row), row.channel, row.timestamp) ==
            if Lookup(rows, row.channel, row.timestamp).Some? then Lookup(rows, row.channel, row.timestamp) else Some(row)
    ensures !HasKey(row, channel, timestamp) ==>
            Lookup(Inserted(rows, row), channel, timestamp) == Lookup(rows, channel, timestamp)
  {
    if Lookup(rows, row.channel, row.timestamp).None? {
      LookupAppend(rows, row, row.channel, row.timestamp);
      LookupAppend(rows, row, channel, timestamp);
    }
  }

  lemma {:induction false} LookupAppend(rows: seq<PinRow>, row: PinRow, channel: string, timestamp: string)
    ensures Lookup(rows + [row], channel, timestamp) ==
            if Lookup(rows, channel, timestamp).Some? then Lookup(rows, channel, timestamp)
            else if HasKey(row, channel, timestamp) then Some(row) else None
  {
    if rows != [] {
      assert (rows + [row])[1..] == rows[1..] + [row];
      LookupAppend(rows[1..], row, channel, timestamp);
    }
  }

  lemma RemovedKeepsUnique(rows: seq<PinRow>, channel: string, timestamp: string)
    requires UniqueKeys(rows)
    ensures UniqueKeys(Removed(rows, channel, timestamp))
  {
    RemovedIsSubsequence(rows, channel, timestamp);
  }

  /** Removal keeps rows in their relative order. */
  lemma {:induction false} RemovedIsSubsequence(rows: seq<PinRow>, channel: string, timestamp: string)
    ensures UniqueKeys(rows) ==> UniqueKeys(Removed(rows, channel, timestamp))
  {
    if rows != [] {
      RemovedIsSubsequence(rows[1..], channel, timestamp);
      if UniqueKeys(rows) {
        var tail := Removed(rows[1..], channel, timestamp);
        assert UniqueKeys(rows[1..]) by {
          forall i, j | 0 <= i < j < |rows[1..]|
            ensures !HasKey(rows[1..][j], rows[1..][i].channel, rows[1..][i].timestamp)
          {
            assert rows[1..][j] == rows[j + 1] && rows[1..][i] == rows[i + 1];
          }
        }
        if !HasKey(rows[0], channel, timestamp) {
          var r := [rows[0]] + tail;
          forall i, j | 0 <= i < j < |r| ensures !HasKey(r[j], r[i].channel, r[i].timestamp) {
            if i == 0 {
              assert r[j] in rows[1..];
              var k :| 0 <= k < |rows[1..]| && rows[1..][k] == r[j];
              assert rows[k + 1] == r[j];
            }
          }
        }
      }
    }
  }

  /** After a removal the key is absent; every other key finds what it found. */
  lemma {:induction false} RemovedLookup(rows: seq<PinRow>, channel: string, timestamp: string, c: string, t: string)
    ensures Lookup(Removed(rows, channel, timestamp), channel, timestamp).None?
    ensures !(SameChannel(c, channel) && t == timestamp) ==>
            Lookup(Removed(rows, channel, timestamp), c, t) == Lookup(rows, c, t)
  {
    if rows != [] {
      RemovedLookup(rows[1..], channel, timestamp, c, t);
    }
  }

  /** Removing a pin that was just added restores the table. */
  lemma RemoveUndoesInsert(rows: seq<PinRow>, row: PinRow)
    requires Lookup(rows, row.channel, row.timestamp).None?
    ensures Removed(Inserted(rows, row), row.channel, row.timestamp) == rows
  {
    RemovedAppend(rows, row);
    RemovedAbsent(rows, row.channel, row.timestamp);
  }

  lemma {:induction false} RemovedAppend(rows: seq<PinRow>, row: PinRow)
    ensures Removed(rows + [row], row.channel, row.timestamp) == Removed(rows, row.channel, row.timestamp)
  {
    if rows == [] {
      assert HasKey(row, row.channel, row.timestamp);
    } else {
      assert (rows + [row])[1..] == rows[1..] + [row];
      RemovedAppend(rows[1..], row);
    }
  }

  lemma {:induction false} RemovedAbsent(rows: seq<PinRow>, channel: string, timestamp: string)
    requires Lookup(rows, channel, timestamp).None?
    ensures Removed(rows, channel, timestamp) == rows
  {
    if rows != [] {
      RemovedAbsent(rows[1..], channel, timestamp);
    }
  }

  /** The pins table. Rows are in `created_at` order. */
  class PinStore {
    var rows: seq<PinRow>

    ghost predicate Valid()
      reads this
    {
      UniqueKeys(rows)
    }

    constructor ()
      ensures Valid() && rows == []
    {
      rows := [];
    }

    /** `get_pin`: the pin of message `timestamp` in `channel`, if stored. */
    function GetPin(channel: string, timestamp: string): (r: Option<Pin>)
      reads this
      ensures r.None? <==> forall i :: 0 <= i < |rows| ==> !HasKey(rows[i], channel, timestamp)
      ensures r.Some? ==> exists i :: 0 <= i < |rows| && HasKey(rows[i], channel, timestamp) && r.value == Selected(rows[i])
    {
      match Lookup(rows, channel, timestamp)
      case None => None
      case Some(row) =>
        var i :| 0 <= i < |rows| && rows[i] == row;
        Some(Selected(row))
    }

    /** `get_random_pin`: some pin of the channel (of the whole table when no
        channel is given), None when there is none. The choice is the store's. */
    method GetRandomPin(channel: Option<string>) returns (r: Option<Pin>)
      ensures r.None? <==> forall i :: 0 <= i < |rows| ==> !(channel.None? || SameChannel(rows[i].channel, channel.value))
      ensures channel.None? ==> (r.None? <==> rows == [])
      ensures r.Some? ==> exists i :: 0 <= i < |rows| && (channel.None? || SameChannel(rows[i].channel, channel.value)) &&
                                     r.value == Selected(rows[i])
    {
      var candidates := InChannel(rows, channel);
      if candidates == [] {
        r := None;
        forall i | 0 <= i < |rows| ensures !(channel.None? || SameChannel(rows[i].channel, channel.value)) {
          assert rows[i] !in candidates;
        }
        assert |rows| > 0 ==> !(channel.None? || SameChannel(rows[0].channel, channel.value));
      } else {
        assert candidates[0] in candidates;
        var row :| row in candidates;
        r := Some(Selected(row));
        var i :| 0 <= i < |rows| && rows[i] == row;
      }
    }

    /** `get_all_pins`: the pins of the channel (of the whole table when no
        channel is given) in the order they were created; None instead of an
        empty list. */
    function GetAllPins(channel: Option<string>): (r: Option<seq<Pin>>)
      reads this
      ensures r.None? <==> forall i :: 0 <= i < |rows| ==> !(channel.None? || SameChannel(rows[i].channel, channel.value))
      ensures r.Some? ==> forall i :: 0 <= i < |rows| && (channel.None? || SameChannel(rows[i].channel, channel.value)) ==>
                            Selected(rows[i]) in r.value
      ensures r.Some? ==> forall p :: p in r.value ==> exists row :: row in rows && (channel.None? || SameChannel(row.channel, channel.value)) && p == Selected(row)
      ensures r.Some? ==> r.value == SelectAll(InChannel(rows, channel))
    {
      var picked := InChannel(rows, channel);
      if picked == [] then
        assert forall i :: 0 <= i < |rows| ==> rows[i] !in picked;
        None
      else
        assert picked[0] in rows;
        SelectAllMembers(picked);
        Some(SelectAll(picked))
    }

    /** `insert_pin`: insert-or-ignore. */
    method InsertPin(user: string, channel: string, timestamp: string, json: string, permalink: string)
      requires Valid()
      modifies this
      ensures Valid()
      ensures rows == Inserted(old(rows), PinRow(user, channel, timestamp, json, permalink))
    {
      InsertedKeepsUnique(rows, PinRow(user, channel, timestamp, json, permalink));
      rows := Inserted(rows, PinRow(user, channel, timestamp, json, permalink));
    }

    /** `remove_pin`: deletes the pin of the message, if stored. */
    method RemovePin(channel: string, timestamp: string)
      requires Valid()
      modifies this
      ensures Valid()
      ensures rows == Removed(old(rows), channel, timestamp)
    {
      RemovedKeepsUnique(rows, channel, timestamp);
      rows := Removed(rows, channel, timestamp);
    }
  }

  // ---- the messages table ------------------------------------------------

  /** One archived message, in the column order of `INSERT_MESSAGE`. */
  datatype MessageRow = MessageRow(timestamp: string, channelId: string, channelName: string,
                                   userId: string, userName: string, message: string, permalink: string)

  /** The uniqueness key of the messages table: (timestamp, channel_id). */
  predicate SameMessage(a: MessageRow, b: MessageRow) {
    a.timestamp == b.timestamp && a.channelId == b.channelId
  }

  /** No two archived messages share the key. */
  predicate UniqueMessages(rows: seq<MessageRow>) {
    forall i, j :: 0 <= i < j < |rows| ==> !SameMessage(rows[i], rows[j])
  }

  /** `INSERT or IGNORE` of one record: dropped when its key is already stored. */
  function InsertOne(rows: seq<MessageRow>, m: MessageRow): (r: seq<MessageRow>)
    ensures r == rows || r == rows + [m]
  {
    if exists k :: 0 <= k < |rows| && SameMessage(rows[k], m) then rows else rows + [m]
  }

  /** `executemany` of `INSERT or IGNORE`, one record after the other: a
      record whose key is already stored, or earlier in the batch, is dropped. */
  function InsertAll(rows: seq<MessageRow>, batch: seq<MessageRow>): (r: seq<MessageRow>)
    ensures |rows| <= |r| <= |rows| + |batch|
    decreases |batch|
  {
    if batch == [] then rows else InsertAll(InsertOne(rows, batch[0]), batch[1..])
  }

  /** Inserting one record stores its key and keeps the key unique. */
  lemma InsertOneMeaning(rows: seq<MessageRow>, m: MessageRow)
    ensures InsertOne(rows, m)[..|rows|] == rows
    ensures exists k :: 0 <= k < |InsertOne(rows, m)| && SameMessage(InsertOne(rows, m)[k], m)
    ensures UniqueMessages(rows) ==> UniqueMessages(InsertOne(rows, m))
  {
    if !exists k :: 0 <= k < |rows| && SameMessage(rows[k], m) {
      assert SameMessage((rows + [m])[|rows|], m);
    }
  }

  /** Row `k` of `r` is the first record of `batch` with its key. */
  predicate FirstOfKey(batch: seq<MessageRow>, r: seq<MessageRow>, k: int)
    requires 0 <= k < |r|
  {
    exists i :: 0 <= i < |batch| && batch[i] == r[k] && forall j :: 0 <= j < i ==> !SameMessage(batch[j], r[k])
  }

  /** No row of `r` before row `k` has its key. */
  predicate NewKeyAt(r: seq<MessageRow>, k: int)
    requires 0 <= k < |r|
  {
    forall j :: 0 <= j < k ==> !SameMessage(r[j], r[k])
  }

  /** The stored rows stay where they are: the batch only appends. */
  lemma {:induction false} InsertAllPrefix(rows: seq<MessageRow>, batch: seq<MessageRow>)
    ensures InsertAll(rows, batch)[..|rows|] == rows
    decreases |batch|
  {
    if batch != [] {
      var head := InsertOne(rows, batch[0]);
      InsertOneMeaning(rows, batch[0]);
      InsertAllPrefix(head, batch[1..]);
      assert InsertAll(rows, batch)[..|rows|] == InsertAll(head, batch[1..])[..|head|][..|rows|];
    }
  }

  /** The rows `executemany` appends: each is the first record of the batch
      with its key, and no row before it has that key. */
  lemma {:induction false} InsertAllAppended(rows: seq<MessageRow>, batch: seq<MessageRow>)
    ensures forall k :: |rows| <= k < |InsertAll(rows, batch)| ==>
              FirstOfKey(batch, InsertAll(rows, batch), k) && NewKeyAt(InsertAll(rows, batch), k)
    decreases |batch|
  {
    if batch != [] {
      var head := InsertOne(rows, batch[0]);
      var r := InsertAll(head, batch[1..]);
      assert r == InsertAll(rows, batch);
      InsertOneMeaning(rows, batch[0]);
      InsertAllPrefix(head, batch[1..]);
      InsertAllAppended(head, batch[1..]);
      forall k | |rows| <= k < |r| ensures FirstOfKey(batch, r, k) && NewKeyAt(r, k) {
        if k < |head| {
          assert head == rows + [batch[0]] && r[k] == batch[0];
          assert r[..|head|] == head;
          forall j | 0 <= j < k ensures !SameMessage(r[j], r[k]) {
            assert r[j] == head[j] == rows[j];
          }
          assert batch[0] == r[k];
        } else {
          assert FirstOfKey(batch[1..], r, k) && NewKeyAt(r, k);
          var i :| 0 <= i < |batch[1..]| && batch[1..][i] == r[k] &&
                   forall j :: 0 <= j < i ==> !SameMessage(batch[1..][j], r[k]);
          var first :| 0 <= first < |head| && SameMessage(head[first], batch[0]);
          assert r[..|head|] == head;
          assert r[first] == head[first];
          assert !SameMessage(r[first], r[k]);
          assert batch[i + 1] == r[k];
          forall j | 0 <= j < i + 1 ensures !SameMessage(batch[j], r[k]) {
            if j > 0 { assert batch[j] == batch[1..][j - 1]; }
          }
        }
      }
    }
  }

  /** The stored rows are kept in place, every record of the batch has its
      key stored afterwards, and the key stays unique. Each appended row is
      the first record of the batch with its key, and no row before it has
      that key: a record whose key is stored, or earlier in the batch, is
      dropped. */
  lemma {:induction false} InsertAllMeaning(rows: seq<MessageRow>, batch: seq<MessageRow>)
    ensures InsertAll(rows, batch)[..|rows|] == rows
    ensures forall i :: 0 <= i < |batch| ==>
              exists k :: 0 <= k < |InsertAll(rows, batch)| && SameMessage(InsertAll(rows, batch)[k], batch[i])
    ensures UniqueMessages(rows) ==> UniqueMessages(InsertAll(rows, batch))
    ensures forall k :: |rows| <= k < |InsertAll(rows, batch)| ==>
              FirstOfKey(batch, InsertAll(rows, batch), k) && NewKeyAt(InsertAll(rows, batch), k)
    decreases |batch|
  {
    InsertAllAppended(rows, batch);
    if batch != [] {
      var head := InsertOne(rows, batch[0]);
      var r := InsertAll(head, batch[1..]);
      InsertOneMeaning(rows, batch[0]);
      InsertAllPrefix(head, batch[1..]);
      InsertAllMeaning(head, batch[1..]);
      assert forall k :: 0 <= k < |head| ==> r[k] == head[k];
      forall i | 0 <= i < |batch|
        ensures exists k :: 0 <= k < |r| && SameMessage(r[k], batch[i])
      {
        if i == 0 {
          var k :| 0 <= k < |head| && SameMessage(head[k], batch[0]);
          assert r[k] == head[k];
        } else {
          assert batch[i] == batch[1..][i - 1];
        }
      }
    }
  }

  // -- get_msg_match --

  /** `MSG_MATCH`: the texts of the messages the expression is found in. */
  function MatchingTexts(rows: seq<MessageRow>, pattern: Pattern, ignoreCase: bool): (texts: seq<string>)
    ensures forall t :: t in texts ==> Regexp(pattern, ignoreCase, t)
    ensures texts == [] <==> forall i :: 0 <= i < |rows| ==> !Regexp(pattern, ignoreCase, rows[i].message)
  {
    if rows == [] then []
    else
      var tail := MatchingTexts(rows[1..], pattern, ignoreCase);
      assert forall i :: 1 <= i < |rows| ==> rows[i] == rows[1..][i - 1];
      if Regexp(pattern, ignoreCase, rows[0].message) then [rows[0].message] + tail else tail
  }

  function LowerAll(ms: seq<string>): (r: seq<string>)
    ensures |r| == |ms| && forall i :: 0 <= i < |ms| ==> r[i] == LowerStr(ms[i])
  {
    seq(|ms|, i requires 0 <= i < |ms| => LowerStr(ms[i]))
  }

  /** Every match in every text, lower-cased, in the order the texts are scanned. */
  function MatchTokens(texts: seq<string>, pattern: Pattern, ignoreCase: bool): seq<string>
  {
    if texts == [] then []
    else MatchTokens(texts[..|texts| - 1], pattern, ignoreCase) + LowerAll(pattern(ignoreCase, texts[|texts| - 1]))
  }

  lemma TallyMatchStep(before: seq<string>, matches: seq<string>, j: nat)
    requires j < |matches|
    ensures Tally(before + LowerAll(matches[..j + 1])) == Bump(Tally(before + LowerAll(matches[..j])), LowerStr(matches[j]))
  {
    assert before + LowerAll(matches[..j + 1]) == (before + LowerAll(matches[..j])) + [LowerStr(matches[j])];
    TallySnoc(before + LowerAll(matches[..j]), LowerStr(matches[j]));
  }

  lemma MatchTokensStep(texts: seq<string>, i: nat, pattern: Pattern, ignoreCase: bool)
    requires i < |texts|
    ensures MatchTokens(texts[..i + 1], pattern, ignoreCase) ==
            MatchTokens(texts[..i], pattern, ignoreCase) + LowerAll(pattern(ignoreCase, texts[i]))
  {
    var m := pattern(ignoreCase, texts[i]);
    assert m[..|m|] == m;
    assert texts[..i + 1][..i] == texts[..i];
  }

  /** What `get_msg_match` returns, the dict as its list of items. */
  function MsgMatch(rows: seq<MessageRow>, pattern: Pattern, ignoreCase: bool): Option<seq<(string, int)>>
  {
    var texts := MatchingTexts(rows, pattern, ignoreCase);
    if texts == [] then None
    else Some(Take(SortDesc(Tally(MatchTokens(texts, pattern, ignoreCase))), 10))
  }

  // -- get_msg_leaderboard --

  /** The author of every message the expression is found in, leaving out
      the authors recorded as "Unknown", in table order. */
  function Authors(rows: seq<MessageRow>, pattern: Pattern, ignoreCase: bool): seq<string>
  {
    if rows == [] then []
    else
      (if Regexp(pattern, ignoreCase, rows[0].message) && rows[0].userName != "Unknown" then [rows[0].userName] else [])
      + Authors(rows[1..], pattern, ignoreCase)
  }

  /** How many messages by `user` the expression is found in. */
  function MatchCount(rows: seq<MessageRow>, pattern: Pattern, ignoreCase: bool, user: string): nat
  {
    if rows == [] then 0
    else
      (if Regexp(pattern, ignoreCase, rows[0].message) && rows[0].userName == user then 1 else 0)
      + MatchCount(rows[1..], pattern, ignoreCase, user)
  }

  /** `MSG_LEADERBOARD`: one row per author with the number of their matching
      messages, most first. SQL leaves the order of equal counts open; the
      model returns them in the order the authors first appear. */
  function LeaderboardRows(rows: seq<MessageRow>, pattern: Pattern, ignoreCase: bool): seq<(string, int)>
  {
    SortDesc(Tally(Authors(rows, pattern, ignoreCase)))
  }

  /** Copying the items of a dict with distinct keys one by one rebuilds it. */
  lemma PutNextItem(items: seq<(string, int)>, k: nat)
    requires NoDup(Keys(items)) && k < |items|
    ensures Put(items[..k], items[k].0, items[k].1) == items[..k + 1]
  {
    assert items[k].0 !in Keys(items[..k]) by {
      assert Keys(items[..k]) == Keys(items)[..k];
    }
    PutNewKey(items[..k], items[k].0, items[k].1);
    assert items[..k + 1] == items[..k] + [items[k]];
  }

  /** `w` is a match found in one of the texts, lower-cased. */
  ghost predicate FoundWord(texts: seq<string>, pattern: Pattern, ignoreCase: bool, w: string) {
    exists t, m :: t in texts && m in pattern(ignoreCase, t) && w == LowerStr(m)
  }

  /** The counted words are exactly the lower-cased matches found in the
      matching texts. */
  lemma {:induction false} MatchTokensMembers(texts: seq<string>, pattern: Pattern, ignoreCase: bool, w: string)
    ensures w in MatchTokens(texts, pattern, ignoreCase) <==> FoundWord(texts, pattern, ignoreCase, w)
  {
    if texts != [] {
      var init, last := texts[..|texts| - 1], texts[|texts| - 1];
      MatchTokensMembers(init, pattern, ignoreCase, w);
      assert texts == init + [last];
      var found := LowerAll(pattern(ignoreCase, last));
      if w in found {
        var j :| 0 <= j < |found| && found[j] == w;
        assert last in texts && pattern(ignoreCase, last)[j] in pattern(ignoreCase, last);
      }
      if FoundWord(texts, pattern, ignoreCase, w) {
        var t, m :| t in texts && m in pattern(ignoreCase, t) && w == LowerStr(m);
        if t == last {
          var j :| 0 <= j < |pattern(ignoreCase, t)| && pattern(ignoreCase, t)[j] == m;
          assert found[j] == w;
        } else {
          assert t in init;
        }
      }
    }
  }

  /** What `get_msg_match` promises: None exactly when no message matches;
      otherwise at most ten distinct lower-cased matches, each with the number
      of times it was found, most frequent first, and no match left out is
      more frequent than the last one shown. */
  lemma MsgMatchMeaning(rows: seq<MessageRow>, pattern: Pattern, ignoreCase: bool)
    ensures MsgMatch(rows, pattern, ignoreCase).None? <==>
            forall i :: 0 <= i < |rows| ==> !Regexp(pattern, ignoreCase, rows[i].message)
    ensures MsgMatch(rows, pattern, ignoreCase).Some? ==>
      var r := MsgMatch(rows, pattern, ignoreCase).value;
      var texts := MatchingTexts(rows, pattern, ignoreCase);
      var tokens := MatchTokens(texts, pattern, ignoreCase);
      && 0 < |r| <= 10 && Descending(r) && NoDup(Keys(r))
      && (forall i :: 0 <= i < |r| ==>
            FoundWord(texts, pattern, ignoreCase, r[i].0) && r[i].1 == Occurrences(tokens, r[i].0))
      && (forall w :: w in tokens && w !in Keys(r) ==> |r| == 10 && Occurrences(tokens, w) <= r[9].1)
  {
    var texts := MatchingTexts(rows, pattern, ignoreCase);
    if texts != [] {
      var tokens := MatchTokens(texts, pattern, ignoreCase);
      var r := Take(SortDesc(Tally(tokens)), 10);
      assert MsgMatch(rows, pattern, ignoreCase) == Some(r);
      TopOfTally(tokens, 10);
      forall i | 0 <= i < |r| ensures FoundWord(texts, pattern, ignoreCase, r[i].0) {
        MatchTokensMembers(texts, pattern, ignoreCase, r[i].0);
      }
      assert |Distinct(tokens)| > 0 by {
        var t := texts[0];
        assert Regexp(pattern, ignoreCase, t);
        var m := pattern(ignoreCase, t)[0];
        assert t in texts && m in pattern(ignoreCase, t);
        assert FoundWord(texts, pattern, ignoreCase, LowerStr(m));
        MatchTokensMembers(texts, pattern, ignoreCase, LowerStr(m));
        DistinctMembers(tokens);
      }
    }
  }

  lemma {:induction false} AuthorsCount(rows: seq<MessageRow>, pattern: Pattern, ignoreCase: bool, user: string)
    ensures Occurrences(Authors(rows, pattern, ignoreCase), user) ==
            if user == "Unknown" then 0 else MatchCount(rows, pattern, ignoreCase, user)
  {
    if rows != [] {
      AuthorsCount(rows[1..], pattern, ignoreCase, user);
      var head := if Regexp(pattern, ignoreCase, rows[0].message) && rows[0].userName != "Unknown" then [rows[0].userName] else [];
      OccurrencesAppend(head, Authors(rows[1..], pattern, ignoreCase), user);
      assert head == [] || head == [] + [head[0]];
    }
  }

  lemma {:induction false} MatchCountOfRow(rows: seq<MessageRow>, pattern: Pattern, ignoreCase: bool, i: nat)
    requires i < |rows| && Regexp(pattern, ignoreCase, rows[i].message)
    ensures MatchCount(rows, pattern, ignoreCase, rows[i].userName) > 0
  {
    if i > 0 {
      MatchCountOfRow(rows[1..], pattern, ignoreCase, i - 1);
    }
  }

  lemma {:induction false} MatchCountHasRow(rows: seq<MessageRow>, pattern: Pattern, ignoreCase: bool, user: string) returns (i: nat)
    requires MatchCount(rows, pattern, ignoreCase, user) > 0
    ensures i < |rows| && Regexp(pattern, ignoreCase, rows[i].message) && rows[i].userName == user
  {
    if Regexp(pattern, ignoreCase, rows[0].message) && rows[0].userName == user {
      i := 0;
    } else {
      var j := MatchCountHasRow(rows[1..], pattern, ignoreCase, user);
      i := j + 1;
    }
  }

  /** What `MSG_LEADERBOARD` returns: one row for every author other than
      "Unknown" with at least one matching message, carrying the number of
      their matching messages, most first; no rows exactly when no such
      message exists. */
  lemma LeaderboardMeaning(rows: seq<MessageRow>, pattern: Pattern, ignoreCase: bool)
    ensures var board := LeaderboardRows(rows, pattern, ignoreCase);
      && (board == [] <==> forall i :: 0 <= i < |rows| ==>
            !(Regexp(pattern, ignoreCase, rows[i].message) && rows[i].userName != "Unknown"))
      && Descending(board) && NoDup(Keys(board))
      && (forall u :: u in Keys(board) <==> u != "Unknown" && MatchCount(rows, pattern, ignoreCase, u) > 0)
      && (forall i :: 0 <= i < |board| ==> board[i].1 == MatchCount(rows, pattern, ignoreCase, board[i].0))
  {
    var authors := Authors(rows, pattern, ignoreCase);
    var board := LeaderboardRows(rows, pattern, ignoreCase);
    RankedTally(authors);
    forall u ensures u in authors <==> u != "Unknown" && MatchCount(rows, pattern, ignoreCase, u) > 0 {
      AuthorsCount(rows, pattern, ignoreCase, u);
      OccurrencesZero(authors, u);
    }
    forall i | 0 <= i < |board| ensures board[i].1 == MatchCount(rows, pattern, ignoreCase, board[i].0) {
      assert Keys(board)[i] == board[i].0;
      AuthorsCount(rows, pattern, ignoreCase, board[i].0);
    }
    if board == [] {
      forall i | 0 <= i < |rows| ensures !(Regexp(pattern, ignoreCase, rows[i].message) && rows[i].userName != "Unknown") {
        if Regexp(pattern, ignoreCase, rows[i].message) {
          MatchCountOfRow(rows, pattern, ignoreCase, i);
          assert rows[i].userName !in Keys(board);
        }
      }
    } else {
      assert Keys(board)[0] in Keys(board);
      var i := MatchCountHasRow(rows, pattern, ignoreCase, Keys(board)[0]);
    }
  }

  /** The counting loops of `get_msg_match`: `leaderboard[match.lower()] += 1`
      for every match of every text, in order. */
  method CountMatches(texts: seq<string>, pattern: Pattern, ignoreCase: bool) returns (leaderboard: seq<(string, int)>)
    ensures leaderboard == Tally(MatchTokens(texts, pattern, ignoreCase))
  {
    leaderboard := [];
    var i := 0;
    assert MatchTokens(texts[..0], pattern, ignoreCase) == [];
    while i < |texts|
      invariant 0 <= i <= |texts|
      invariant leaderboard == Tally(MatchTokens(texts[..i], pattern, ignoreCase))
    {
      var matches := pattern(ignoreCase, texts[i]);
      ghost var before := MatchTokens(texts[..i], pattern, ignoreCase);
      var j := 0;
      assert before + LowerAll(matches[..0]) == before;
      while j < |matches|
        invariant 0 <= j <= |matches|
        invariant leaderboard == Tally(before + LowerAll(matches[..j]))
      {
        TallyMatchStep(before, matches, j);
        leaderboard := Bump(leaderboard, LowerStr(matches[j]));
        j := j + 1;
      }
      assert matches[..|matches|] == matches;
      MatchTokensStep(texts, i, pattern, ignoreCase);
      i := i + 1;
    }
    assert texts[..|texts|] == texts;
  }

  /** The copying loop of `get_msg_match`: items are copied into a fresh dict
      until ten have been copied. */
  method FirstTen(items: seq<(string, int)>) returns (returned: seq<(string, int)>)
    requires NoDup(Keys(items))
    ensures returned == Take(items, 10)
  {
    returned := [];
    var numToDisplay := 10;
    var k := 0;
    while k < |items|
      invariant 0 <= k <= |items| && k <= 10
      invariant numToDisplay == 10 - k
      invariant returned == items[..k]
    {
      PutNextItem(items, k);
      returned := Put(returned, items[k].0, items[k].1);
      numToDisplay := numToDisplay - 1;
      k := k + 1;
      if numToDisplay <= 0 {
        break;
      }
    }
  }

  /** The archived messages. */
  class MessageArchive {
    var rows: seq<MessageRow>

    constructor ()
      ensures rows == []
    {
      rows := [];
    }

    /** `insert_messages`. */
    method InsertMessages(batch: seq<MessageRow>)
      modifies this
      ensures rows == InsertAll(old(rows), batch)
    {
      rows := InsertAll(rows, batch);
    }

    /** `get_msg_leaderboard`: the query's rows copied into a dict. */
    method GetMsgLeaderboard(pattern: Pattern, ignoreCase: bool) returns (r: Option<seq<(string, int)>>)
      ensures r == if LeaderboardRows(rows, pattern, ignoreCase) == [] then None else Some(LeaderboardRows(rows, pattern, ignoreCase))
    {
      var found := LeaderboardRows(rows, pattern, ignoreCase);
      if |found| == 0 {
        return None;
      }
      TallyKeys(Authors(rows, pattern, ignoreCase));
      SortDescKeys(Tally(Authors(rows, pattern, ignoreCase)));
      var leaderboard: seq<(string, int)> := [];
      var i := 0;
      while i < |found|
        invariant 0 <= i <= |found|
        invariant leaderboard == found[..i]
      {
        PutNextItem(found, i);
        leaderboard := Put(leaderboard, found[i].0, found[i].1);
        i := i + 1;
      }
      assert found[..|found|] == found;
      r := Some(leaderboard);
    }

    /** `get_msg_match`: counts every match in every matching message under
        its lower-cased text and keeps the ten most frequent. */
    method GetMsgMatch(pattern: Pattern, ignoreCase: bool) returns (r: Option<seq<(string, int)>>)
      ensures r == MsgMatch(rows, pattern, ignoreCase)
    {
      var texts := MatchingTexts(rows, pattern, ignoreCase);
      if |texts| == 0 {
        return None;
      }
      var leaderboard := CountMatches(texts, pattern, ignoreCase);
      TallyKeys(MatchTokens(texts, pattern, ignoreCase));
      SortDescKeys(leaderboard);
      var returned := FirstTen(SortDesc(leaderboard));
      r := Some(returned);
    }
  }
}
