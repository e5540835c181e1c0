/**
 * The one-off import of a Slack export (`load_messages.py`): every message
 * file of a channel directory is normalised, its records are tagged with the
 * channel and inserted into the archive, and `inserted_message_counts` keeps
 * how many records each channel contributed.
 */
module LoadMessages {
  import opened Common
  import opened DataInterface
  import opened MessageLoader
  import PinHandlers
  import opened Ranking

  // ---- process_message_file ------------------------------------------------

  /** A record of `process_message_file`; the channel is added later. */
  datatype FileRecord = FileRecord(timestamp: string, userId: string, userName: string, message: string,
                                   permalink: string)

  /** A message that makes `process_message_file` raise: no `ts`, or a
      complete message whose `user_profile` has no `name`. */
  predicate FileRaises(m: RawMessage) {
    m.ts.None? || (Complete(m) && m.profile.Some? && m.profile.value.name.None?)
  }

  /** The record of a complete message: the author's name is the profile's,
      or "Unknown" when the export has no profile. */
  function FileRow(m: RawMessage, channelId: string, base: string): (r: FileRecord)
    requires Complete(m) && !FileRaises(m)
    ensures r.timestamp == m.ts.value && r.userId == m.user.value && r.message == m.text.value
    ensures r.permalink == MessagePermalink(base, channelId, m.ts.value)
    ensures m.profile.None? ==> r.userName == "Unknown"
    ensures m.profile.Some? ==> r.userName == m.profile.value.name.value
  {
    var name := if m.profile.Some? then m.profile.value.name.value else "Unknown";
    FileRecord(m.ts.value, m.user.value, name, m.text.value, MessagePermalink(base, channelId, m.ts.value))
  }

  /** One iteration of `process_message_file`. */
  function FileStep(m: RawMessage, channelId: string, base: string): Step<FileRecord> {
    match ResolveMissingKeys(m)
    case KeyError(k) => Fail(KeyErrorText(k))
    case Dropped => Skip
    case Kept(k) =>
      var profile := k.profile.value;
      if profile.name.None? then Fail(KeyErrorText("name"))  // `message['user_profile']['name']`
      else Emit(FileRecord(k.ts.value, k.user.value, profile.name.value, k.text.value,
                           MessagePermalink(base, channelId, k.ts.value)))
  }

  function FileSteps(ms: seq<RawMessage>, channelId: string, base: string): (steps: seq<Step<FileRecord>>)
    ensures |steps| == |ms| && forall i :: 0 <= i < |ms| ==> steps[i] == FileStep(ms[i], channelId, base)
  {
    seq(|ms|, i requires 0 <= i < |ms| => FileStep(ms[i], channelId, base))
  }

  /** `process_message_file`, the file already read into `ms`. */
  function FileRecords(ms: seq<RawMessage>, channelId: string, base: string): Outcome<seq<FileRecord>> {
    Collect(FileSteps(ms, channelId, base))
  }

  lemma FileStepOf(m: RawMessage, channelId: string, base: string)
    requires !FileRaises(m)
    ensures Complete(m) ==> FileStep(m, channelId, base) == Emit(FileRow(m, channelId, base))
    ensures !Complete(m) ==> FileStep(m, channelId, base) == Skip
  {
  }

  /** The records of messages that all pass, in order. */
  function FileRowsOf(ps: seq<RawMessage>, channelId: string, base: string): (recs: seq<FileRecord>)
    requires forall k :: 0 <= k < |ps| ==> Complete(ps[k]) && !FileRaises(ps[k])
    ensures |recs| == |ps|
    ensures forall k :: 0 <= k < |ps| ==> recs[k] == FileRow(ps[k], channelId, base)
  {
    if ps == [] then [] else [FileRow(ps[0], channelId, base)] + FileRowsOf(ps[1..], channelId, base)
  }

  /** Without an exception, the loop emits the record of every complete message. */
  lemma {:induction false} EmittedFile(ms: seq<RawMessage>, channelId: string, base: string)
    requires forall m :: m in ms ==> !FileRaises(m)
    ensures forall k :: 0 <= k < |Passing(ms)| ==> !FileRaises(Passing(ms)[k])
    ensures Emitted(FileSteps(ms, channelId, base)) == FileRowsOf(Passing(ms), channelId, base)
  {
    if ms != [] {
      var steps := FileSteps(ms, channelId, base);
      var tail := FileSteps(ms[1..], channelId, base);
      assert steps[1..] == tail;
      EmittedFile(ms[1..], channelId, base);
      FileStepOf(ms[0], channelId, base);
      var ps := Passing(ms[1..]);
      if Complete(ms[0]) {
        assert Passing(ms) == [ms[0]] + ps;
        assert Passing(ms)[1..] == ps;
      } else {
        assert Passing(ms) == ps;
      }
    }
  }

  /** The records are the complete messages of the file, in file order, with
      the dot-stripped permalink; the import stops with a `KeyError` at the
      first message without `ts` or with a nameless profile. */
  lemma FileRecordsMeaning(ms: seq<RawMessage>, channelId: string, base: string)
    ensures FileRecords(ms, channelId, base).Done? <==> forall m :: m in ms ==> !FileRaises(m)
    ensures FileRecords(ms, channelId, base).Done? ==>
      var recs := FileRecords(ms, channelId, base).value;
      |recs| == |Passing(ms)| <= |ms| &&
      forall k :: 0 <= k < |recs| ==> !FileRaises(Passing(ms)[k]) && recs[k] == FileRow(Passing(ms)[k], channelId, base)
    ensures forall i :: 0 <= i < |ms| && FileRaises(ms[i]) && (forall j :: 0 <= j < i ==> !FileRaises(ms[j])) ==>
      FileRecords(ms, channelId, base) == Raised(KeyErrorText(if ms[i].ts.None? then "ts" else "name"))
  {
    var steps := FileSteps(ms, channelId, base);
    CollectMeaning(steps);
    assert forall i :: 0 <= i < |ms| ==> (steps[i].Fail? <==> FileRaises(ms[i]));
    if forall m :: m in ms ==> !FileRaises(m) {
      EmittedFile(ms, channelId, base);
    }
    forall i | 0 <= i < |ms| && FileRaises(ms[i]) && (forall j :: 0 <= j < i ==> !FileRaises(ms[j]))
      ensures FileRecords(ms, channelId, base) == Raised(KeyErrorText(if ms[i].ts.None? then "ts" else "name"))
    {
      assert FirstFail(steps, i);
    }
  }

  /** The loop of `process_message_file`. */
  method ProcessMessageFile(ms: seq<RawMessage>, channelId: string, base: string) returns (r: Outcome<seq<FileRecord>>)
    ensures r == FileRecords(ms, channelId, base)
  {
    ghost var steps := FileSteps(ms, channelId, base);
    var data: seq<FileRecord> := [];
    var i := 0;
    while i < |ms|
      invariant 0 <= i <= |ms|
      invariant Collect(steps[..i]) == Done(data)
    {
      var checked := ResolveMissingKeys(ms[i]);
      assert steps[i] == FileStep(ms[i], channelId, base);
      match checked {
        case KeyError(k) =>
          CollectStopsAt(steps, i);
          return Raised(KeyErrorText(k));
        case Dropped =>
          assert steps[i] == Skip;
          CollectSnoc(steps, i, data);
          assert data + [] == data;
        case Kept(m) =>
          var profile := m.profile.value;
          if profile.name.None? {
            CollectStopsAt(steps, i);
            return Raised(KeyErrorText("name"));
          }
          var permalink := MessagePermalink(base, channelId, m.ts.value);
          var record := FileRecord(m.ts.value, m.user.value, profile.name.value, m.text.value, permalink);
          assert steps[i] == Emit(record);
          CollectSnoc(steps, i, data);
          data := data + [record];
      }
      i := i + 1;
    }
    assert steps[..|ms|] == steps;
    return Done(data);
  }

  // ---- tagging with the channel ------------------------------------------------

  /** A record after `message['channel_id']` and `message['channel_name']`
      are set. */
  function Tagged(r: FileRecord, channelId: string, channelName: string): (row: MessageRow)
    ensures row.channelId == channelId && row.channelName == channelName
    ensures row.timestamp == r.timestamp && row.userId == r.userId && row.userName == r.userName
    ensures row.message == r.message && row.permalink == r.permalink
  {
    MessageRow(r.timestamp, channelId, channelName, r.userId, r.userName, r.message, r.permalink)
  }

  function TagAll(recs: seq<FileRecord>, channelId: string, channelName: string): (rows: seq<MessageRow>)
    ensures |rows| == |recs| && forall k :: 0 <= k < |recs| ==> rows[k] == Tagged(recs[k], channelId, channelName)
  {
    seq(|recs|, k requires 0 <= k < |recs| => Tagged(recs[k], channelId, channelName))
  }

  /** The loop that sets the channel on every record of a file. */
  method TagRecords(recs: seq<FileRecord>, channelId: string, channelName: string) returns (rows: seq<MessageRow>)
    ensures rows == TagAll(recs, channelId, channelName)
  {
    rows := [];
    var i := 0;
    while i < |recs|
      invariant 0 <= i <= |recs|
      invariant rows == TagAll(recs[..i], channelId, channelName)
    {
      assert recs[..i + 1] == recs[..i] + [recs[i]];
      rows := rows + [Tagged(recs[i], channelId, channelName)];
      i := i + 1;
    }
    assert recs[..i] == recs;
  }

  // ---- a channel directory -----------------------------------------------------

  /** An entry of `channels.json`. */
  datatype ChannelInfo = ChannelInfo(id: string, name: string)

  /** `[channel['id'] for channel in channel_info if channel['name'] == name]`. */
  function IdsNamed(info: seq<ChannelInfo>, name: string): (ids: seq<string>)
    ensures |ids| <= |info|
    ensures forall id :: id in ids <==> ChannelInfo(id, name) in info
  {
    if info == [] then []
    else (if info[0].name == name then [info[0].id] else []) + IdsNamed(info[1..], name)
  }

  /** `inserted_message_counts.get(name, 0)`. */
  function CountIn(counts: seq<(string, int)>, name: string): int {
    Get(counts, name, 0)
  }

  /** A message file as one step of a channel: its records, or its exception. */
  function BatchStep(ms: seq<RawMessage>, channelId: string, base: string): Step<seq<FileRecord>> {
    match FileRecords(ms, channelId, base)
    case Done(recs) => Emit(recs)
    case Raised(e) => Fail(e)
  }

  function BatchSteps(files: seq<seq<RawMessage>>, channelId: string, base: string): (steps: seq<Step<seq<FileRecord>>>)
    ensures |steps| == |files| && forall i :: 0 <= i < |files| ==> steps[i] == BatchStep(files[i], channelId, base)
  {
    seq(|files|, i requires 0 <= i < |files| => BatchStep(files[i], channelId, base))
  }

  /** How many records the batches hold. */
  function TotalLen(batches: seq<seq<FileRecord>>): nat {
    if batches == [] then 0 else TotalLen(batches[..|batches| - 1]) + |batches[|batches| - 1]|
  }

  /** The rows inserted for the batches, in order. */
  function TaggedAll(batches: seq<seq<FileRecord>>, channelId: string, channelName: string): (rows: seq<MessageRow>)
    ensures |rows| == TotalLen(batches)
  {
    if batches == [] then []
    else TaggedAll(batches[..|batches| - 1], channelId, channelName) +
         TagAll(batches[|batches| - 1], channelId, channelName)
  }

  /** Every row inserted for a channel carries the channel's id and name. */
  lemma {:induction false} TaggedAllChannel(batches: seq<seq<FileRecord>>, channelId: string, channelName: string)
    ensures forall row :: row in TaggedAll(batches, channelId, channelName) ==>
              row.channelId == channelId && row.channelName == channelName
  {
    if batches != [] {
      TaggedAllChannel(batches[..|batches| - 1], channelId, channelName);
    }
  }

  /** Inserting two batches one after the other inserts their concatenation. */
  lemma {:induction false} InsertAllAppend(rows: seq<MessageRow>, a: seq<MessageRow>, b: seq<MessageRow>)
    ensures InsertAll(InsertAll(rows, a), b) == InsertAll(rows, a + b)
    decreases |a|
  {
    if a != [] {
      var head := InsertOne(rows, a[0]);
      assert (a + b)[0] == a[0] && (a + b)[1..] == a[1..] + b;
      assert InsertAll(rows, a) == InsertAll(head, a[1..]);
      assert InsertAll(rows, a + b) == InsertAll(head, a[1..] + b);
      InsertAllAppend(head, a[1..], b);
    } else {
      assert a + b == b;
    }
  }

  /** A channel directory of the export: its name and its message files, in
      the order the directory is scanned. */
  datatype ChannelDir = ChannelDir(name: string, files: seq<seq<RawMessage>>)

  /** The records of each file of a channel directory, or the exception that
      stops the import: no entry of `channels.json` has the directory's
      name, or a file raises. */
  function ChannelBatches(info: seq<ChannelInfo>, channelName: string, files: seq<seq<RawMessage>>, base: string)
    : Outcome<seq<seq<FileRecord>>>
  {
    var ids := IdsNamed(info, channelName);
    if ids == [] then Raised(PinHandlers.IndexErrorText)  // `[...][0]` of an empty list
    else Collect(BatchSteps(files, ids[0], base))
  }

  /** `inserted_message_counts` after the loop has counted each batch. */
  function Counted(counts: seq<(string, int)>, channelName: string, batches: seq<seq<FileRecord>>): seq<(string, int)> {
    if batches == [] then counts
    else
      var before := Counted(counts, channelName, batches[..|batches| - 1]);
      Put(before, channelName, CountIn(before, channelName) + |batches[|batches| - 1]|)
  }

  /** The archive after the loop has inserted each tagged batch. */
  function Archived(rows: seq<MessageRow>, batches: seq<seq<FileRecord>>, channelId: string, channelName: string): seq<MessageRow> {
    if batches == [] then rows
    else InsertAll(Archived(rows, batches[..|batches| - 1], channelId, channelName),
                   TagAll(batches[|batches| - 1], channelId, channelName))
  }

  /** One more file: its batch is counted after the others. */
  lemma CountedSnoc(counts: seq<(string, int)>, channelName: string, batches: seq<seq<FileRecord>>, recs: seq<FileRecord>,
                    before: seq<(string, int)>, after: seq<(string, int)>)
    requires before == Counted(counts, channelName, batches)
    requires after == Put(before, channelName, CountIn(before, channelName) + |recs|)
    ensures after == Counted(counts, channelName, batches + [recs])
  {
    assert (batches + [recs])[..|batches|] == batches;
  }

  /** One more file: its batch is inserted after the others. */
  lemma ArchivedSnoc(rows: seq<MessageRow>, batches: seq<seq<FileRecord>>, recs: seq<FileRecord>,
                     channelId: string, channelName: string, before: seq<MessageRow>, after: seq<MessageRow>)
    requires before == Archived(rows, batches, channelId, channelName)
    requires after == InsertAll(before, TagAll(recs, channelId, channelName))
    ensures after == Archived(rows, batches + [recs], channelId, channelName)
  {
    assert (batches + [recs])[..|batches|] == batches;
  }

  /** A channel's count grows by the records of all its files together, and
      no other channel's count changes; a channel without files is not
      counted at all. */
  lemma {:induction false} CountedMeaning(counts: seq<(string, int)>, channelName: string, batches: seq<seq<FileRecord>>)
    ensures batches == [] ==> Counted(counts, channelName, batches) == counts
    ensures batches != [] ==>
      Counted(counts, channelName, batches) == Put(counts, channelName, CountIn(counts, channelName) + TotalLen(batches))
  {
    if batches != [] {
      var init := batches[..|batches| - 1];
      CountedMeaning(counts, channelName, init);
      if init != [] {
        var total := CountIn(counts, channelName) + TotalLen(init);
        GetPut(counts, channelName, total, channelName, 0);
        PutPut(counts, channelName, total, total + |batches[|batches| - 1]|);
      }
    }
  }

  /** What the log line reads after a channel: a channel that had files is
      always in the counts, grown by exactly its records, and every other
      channel's count is as it was. */
  lemma ChannelCountLogged(counts: seq<(string, int)>, channelName: string, batches: seq<seq<FileRecord>>)
    ensures batches != [] ==> channelName in Keys(Counted(counts, channelName, batches))
    ensures batches != [] || channelName in Keys(counts) ==>
              CountIn(Counted(counts, channelName, batches), channelName) == CountIn(counts, channelName) + TotalLen(batches)
    ensures forall other :: other != channelName ==>
              CountIn(Counted(counts, channelName, batches), other) == CountIn(counts, other)
  {
    CountedMeaning(counts, channelName, batches);
    if batches != [] {
      var total := CountIn(counts, channelName) + TotalLen(batches);
      PutKeys(counts, channelName, total);
      assert channelName in Keys(Put(counts, channelName, total)) by {
        if channelName !in Keys(counts) {
          assert Keys(Put(counts, channelName, total))[|Keys(counts)|] == channelName;
        }
      }
      forall other | true
        ensures CountIn(Put(counts, channelName, total), other) == if other == channelName then total else CountIn(counts, other)
      {
        GetPut(counts, channelName, total, other, 0);
      }
    }
  }

  /** Counting never forgets a channel. */
  lemma CountedKeepsKeys(counts: seq<(string, int)>, channelName: string, batches: seq<seq<FileRecord>>, k: string)
    requires k in Keys(counts)
    ensures k in Keys(Counted(counts, channelName, batches))
  {
    CountedMeaning(counts, channelName, batches);
    if batches != [] {
      PutKeys(counts, channelName, CountIn(counts, channelName) + TotalLen(batches));
    }
  }

  /** Inserting the batches one file after the other inserts all the
      channel's rows in one go. */
  lemma {:induction false} ArchivedMeaning(rows: seq<MessageRow>, batches: seq<seq<FileRecord>>, channelId: string,
                                           channelName: string)
    ensures Archived(rows, batches, channelId, channelName) == InsertAll(rows, TaggedAll(batches, channelId, channelName))
  {
    if batches != [] {
      var init := batches[..|batches| - 1];
      ArchivedMeaning(rows, init, channelId, channelName);
      InsertAllAppend(rows, TaggedAll(init, channelId, channelName), TagAll(batches[|batches| - 1], channelId, channelName));
    }
  }

  /** Every file of the directory is read without an exception. */
  predicate ChannelLoads(info: seq<ChannelInfo>, d: ChannelDir, base: string) {
    ChannelBatches(info, d.name, d.files, base).Done?
  }

  /** The exceptions the directory can end the import with: one raised while
      reading its files, or the `KeyError` of the log line when nothing was
      counted for it. */
  predicate ChannelFails(info: seq<ChannelInfo>, d: ChannelDir, base: string, e: string) {
    var run := ChannelBatches(info, d.name, d.files, base);
    e == KeyErrorText(d.name) || (run.Raised? && e == run.error)
  }

  /** What a file loop that raised `e` leaves: the files before the failing
      one are inserted and counted, as a run over them alone would. */
  ghost predicate StoppedAt(counts0: seq<(string, int)>, rows0: seq<MessageRow>, counts: seq<(string, int)>, rows: seq<MessageRow>,
                            files: seq<seq<RawMessage>>, channelId: string, channelName: string, base: string, e: string)
  {
    exists n, bs :: && 0 <= n < |files|
                    && Collect(BatchSteps(files, channelId, base)[..n]) == Done(bs)
                    && BatchSteps(files, channelId, base)[n] == Fail(e)
                    && counts == Counted(counts0, channelName, bs)
                    && rows == InsertAll(rows0, TaggedAll(bs, channelId, channelName))
  }

  /** The import's state: the archive and `inserted_message_counts`. */
  class Loader {
    const archive: MessageArchive
    var counts: seq<(string, int)>

    constructor (archive: MessageArchive)
      ensures this.archive == archive && counts == []
    {
      this.archive := archive;
      counts := [];
    }

    /** Lines 31-35 for one file's records: tag, insert, count. */
    method StoreBatch(channelId: string, channelName: string, recs: seq<FileRecord>)
      modifies this, archive
      ensures counts == Put(old(counts), channelName, CountIn(old(counts), channelName) + |recs|)
      ensures archive.rows == InsertAll(old(archive.rows), TagAll(recs, channelId, channelName))
    {
      var rows := TagRecords(recs, channelId, channelName);
      archive.InsertMessages(rows);
      counts := Put(counts, channelName, CountIn(counts, channelName) + |recs|);
    }

    /** One message file of a channel directory: normalise, tag, insert,
        count. The count of the channel grows by the file's record count. */
    method LoadFile(channelId: string, channelName: string, ms: seq<RawMessage>, base: string)
      returns (err: Option<string>)
      modifies this, archive
      ensures FileRecords(ms, channelId, base).Raised? <==> err.Some?
      ensures err.Some? ==>
                err.value == FileRecords(ms, channelId, base).error && counts == old(counts) && archive.rows == old(archive.rows)
      ensures err.None? ==>
                counts == Put(old(counts), channelName, CountIn(old(counts), channelName) + |FileRecords(ms, channelId, base).value|)
      ensures err.None? ==>
                archive.rows == InsertAll(old(archive.rows), TagAll(FileRecords(ms, channelId, base).value, channelId, channelName))
    {
      var data := ProcessMessageFile(ms, channelId, base);
      if data.Raised? {
        return Some(data.error);
      }
      StoreBatch(channelId, channelName, data.value);
      return None;
    }

    /** The loop over a channel directory's message files; the first file
        that raises ends it. */
    method LoadFiles(channelId: string, channelName: string, files: seq<seq<RawMessage>>, base: string)
      returns (err: Option<string>)
      modifies this, archive
      ensures var outcome := Collect(BatchSteps(files, channelId, base));
        && (outcome.Raised? <==> err.Some?)
        && (outcome.Raised? ==> err == Some(outcome.error))
        && (outcome.Done? ==> && counts == Counted(old(counts), channelName, outcome.value)
                              && archive.rows == Archived(old(archive.rows), outcome.value, channelId, channelName))
      ensures err.Some? ==>
                StoppedAt(old(counts), old(archive.rows), counts, archive.rows, files, channelId, channelName, base, err.value)
      ensures forall k :: k in Keys(old(counts)) ==> k in Keys(counts)
    {
      ghost var steps := BatchSteps(files, channelId, base);
      ghost var batches: seq<seq<FileRecord>> := [];
      var i := 0;
      while i < |files|
        invariant 0 <= i <= |files|
        invariant Collect(steps[..i]) == Done(batches)
        invariant counts == Counted(old(counts), channelName, batches)
        invariant archive.rows == Archived(old(archive.rows), batches, channelId, channelName)
      {
        ghost var before, beforeRows := counts, archive.rows;
        err := LoadFile(channelId, channelName, files[i], base);
        assert steps[i] == BatchStep(files[i], channelId, base);
        if err.Some? {
          CollectStopsAt(steps, i);
          ArchivedMeaning(old(archive.rows), batches, channelId, channelName);
          assert 0 <= i < |files| && Collect(steps[..i]) == Done(batches) && steps[i] == Fail(err.value);
          forall k | k in Keys(old(counts)) ensures k in Keys(counts) {
            CountedKeepsKeys(old(counts), channelName, batches, k);
          }
          return;
        }
        ghost var recs := FileRecords(files[i], channelId, base).value;
        CollectSnoc(steps, i, batches);
        CountedSnoc(old(counts), channelName, batches, recs, before, counts);
        ArchivedSnoc(old(archive.rows), batches, recs, channelId, channelName, beforeRows, archive.rows);
        batches := batches + [recs];
        i := i + 1;
      }
      assert steps[..|files|] == steps;
      forall k | k in Keys(old(counts)) ensures k in Keys(counts) {
        CountedKeepsKeys(old(counts), channelName, batches, k);
      }
      return None;
    }

    /** A channel directory: look the id up in `channels.json`, load every
        file in turn, then read the channel's count back for the log line. */
    method LoadChannel(info: seq<ChannelInfo>, channelName: string, files: seq<seq<RawMessage>>, base: string)
      returns (err: Option<string>)
      modifies this, archive
      ensures IdsNamed(info, channelName) == [] ==> counts == old(counts) && archive.rows == old(archive.rows)
      ensures ChannelBatches(info, channelName, files, base).Raised? ==>
                err == Some(ChannelBatches(info, channelName, files, base).error)
      ensures ChannelBatches(info, channelName, files, base).Done? ==>
                && IdsNamed(info, channelName) != []
                && counts == Counted(old(counts), channelName, ChannelBatches(info, channelName, files, base).value)
                && archive.rows == InsertAll(old(archive.rows), TaggedAll(ChannelBatches(info, channelName, files, base).value,
                                                                          IdsNamed(info, channelName)[0], channelName))
                && err == (if channelName in Keys(counts) then None else Some(KeyErrorText(channelName)))
      ensures ChannelBatches(info, channelName, files, base).Raised? && IdsNamed(info, channelName) != [] ==>
                err.Some? &&
                StoppedAt(old(counts), old(archive.rows), counts, archive.rows, files, IdsNamed(info, channelName)[0],
                          channelName, base, err.value)
      ensures forall k :: k in Keys(old(counts)) ==> k in Keys(counts)
      ensures ChannelBatches(info, channelName, files, base).Done? && files == [] && channelName !in Keys(old(counts)) ==>
                err == Some(KeyErrorText(channelName))
    {
      var ids := IdsNamed(info, channelName);
      if |ids| == 0 {
        return Some(PinHandlers.IndexErrorText);
      }
      err := LoadFiles(ids[0], channelName, files, base);
      if err.Some? {
        return;
      }
      ghost var batches := ChannelBatches(info, channelName, files, base).value;
      CountedMeaning(old(counts), channelName, batches);
      ArchivedMeaning(old(archive.rows), batches, ids[0], channelName);
      if channelName !in Keys(counts) {
        return Some(KeyErrorText(channelName));  // the log line reads `inserted_message_counts[channel_name]`
      }
      return None;
    }

    /** `main`: each channel directory in turn; the first exception ends the
        import. A run that ends normally has loaded every file of every
        directory; a run that stops names the exception of one directory. */
    method LoadAll(info: seq<ChannelInfo>, dirs: seq<ChannelDir>, base: string) returns (err: Option<string>)
      modifies this, archive
      ensures err.None? ==> forall i :: 0 <= i < |dirs| ==> ChannelLoads(info, dirs[i], base)
      ensures err.Some? ==> exists i :: 0 <= i < |dirs| && ChannelFails(info, dirs[i], base, err.value)
    {
      var i := 0;
      while i < |dirs|
        invariant 0 <= i <= |dirs|
        invariant forall j :: 0 <= j < i ==> ChannelLoads(info, dirs[j], base)
      {
        var d := dirs[i];
        err := LoadChannel(info, d.name, d.files, base);
        if err.Some? {
          assert ChannelFails(info, dirs[i], base, err.value);
          return;
        }
        assert ChannelLoads(info, dirs[i], base);
        i := i + 1;
      }
      return None;
    }
  }
}
