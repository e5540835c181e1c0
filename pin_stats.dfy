/**
 * `_cmd_pin_stats`: the "Top Users" and "Top Reactions" boards of the pins
 * table.
 *
 * What the handler asks Slack about one pin (does its channel and author
 * exist, what reactions does the message have) is an input here: a
 * `Resolver` gives, for every pin, the outcome of those lookups.
 */
module PinStats {
  import opened Common
  import opened Ranking
  import opened DataInterface
  import opened PinHandlers

  /** What the lookups for one pin come to. */
  datatype PinLookup =
    | NoFields                 // the stored message is an empty dict: the pin is skipped
    | Unresolvable(error: string)  // a lookup raised (no such channel or user, a missing key)
    | ReactionsUnavailable     // `reactions_get` failed: the pin is skipped
    | Resolved(channelName: string, userName: string, avatar: string, text: string,
               reactions: Option<seq<int>>)  // None when the reply has no reaction list

  type Resolver = Pin -> PinLookup

  /** What `pin_store[permalink]` holds for one pin. */
  datatype PinDetails = PinDetails(channel: string, avatar: string, user: string, message: string, reactionCount: int)

  /** A `pin_store` value: the empty dict of a skipped pin, or the details. */
  datatype Entry = Blank | Filled(details: PinDetails)

  /** `pin_store`, an insertion-ordered dict keyed by permalink. */
  type PinStoreDict = seq<(string, Entry)>

  const NotIterableText := "'NoneType' object is not iterable"
  const MissingUserText := "'user'"

  /** The sum of the reaction counts. */
  function Sum(xs: seq<int>): int {
    if xs == [] then 0 else Sum(xs[..|xs| - 1]) + xs[|xs| - 1]
  }

  function DetailsOf(l: PinLookup): PinDetails
    requires l.Resolved?
  {
    PinDetails(l.channelName, l.avatar, l.userName, l.text,
               if l.reactions.Some? then Sum(l.reactions.value) else 0)
  }

  datatype Collected = Collected(dict: PinStoreDict) | Faulted(error: string)

  /** The first loop of `_cmd_pin_stats`, over the remaining pins. */
  function Collect(dict: PinStoreDict, pins: seq<Pin>, resolve: Resolver): Collected
    decreases |pins|
  {
    if pins == [] then Collected(dict)
    else
      var cleared := Put(dict, pins[0].permalink, Blank);
      match resolve(pins[0])
      case Unresolvable(e) => Faulted(e)
      case Resolved(_, _, _, _, _) =>
        Collect(Put(cleared, pins[0].permalink, Filled(DetailsOf(resolve(pins[0])))), pins[1..], resolve)
      case _ => Collect(cleared, pins[1..], resolve)
  }

  predicate NoBlank(dict: PinStoreDict) {
    forall i :: 0 <= i < |dict| ==> dict[i].1.Filled?
  }

  /** The filled entries of the dict, in order. */
  function FilledEntries(dict: PinStoreDict): (r: seq<(string, PinDetails)>)
    ensures NoBlank(dict) ==> |r| == |dict| && forall i :: 0 <= i < |dict| ==> r[i] == (dict[i].0, dict[i].1.details)
  {
    if dict == [] then []
    else
      var last := dict[|dict| - 1];
      FilledEntries(dict[..|dict| - 1]) + (if last.1.Filled? then [(last.0, last.1.details)] else [])
  }

  /** The author of every filled entry, in order: what `user_count` counts. */
  function Users(dict: PinStoreDict): (us: seq<string>)
    ensures NoBlank(dict) ==> |us| == |dict| && forall i :: 0 <= i < |dict| ==> us[i] == dict[i].1.details.user
  {
    var f := FilledEntries(dict);
    seq(|f|, i requires 0 <= i < |f| => f[i].1.user)
  }

  /** `user_count[u]['avatar']`, set by the first pin of `u`. */
  function FirstAvatars(dict: PinStoreDict): seq<(string, string)>
  {
    if dict == [] then []
    else
      var last := dict[|dict| - 1];
      var d := FirstAvatars(dict[..|dict| - 1]);
      if last.1.Filled? then SetDefault(d, last.1.details.user, last.1.details.avatar) else d
  }

  /** The value stored under `k`, "" when there is none. */
  function ValueOf(d: seq<(string, string)>, k: string): string {
    if d == [] then "" else if d[0].0 == k then d[0].1 else ValueOf(d[1..], k)
  }

  /** The items `sorted(..., key=reaction_count)` ranks: each entry with its
      reaction count. */
  function ReactionEntries(dict: PinStoreDict): (es: seq<((string, PinDetails), int)>)
    ensures |es| == |FilledEntries(dict)|
  {
    var f := FilledEntries(dict);
    seq(|f|, i requires 0 <= i < |f| => (f[i], f[i].1.reactionCount))
  }

  function UserRanks(top: seq<(string, int)>, avatars: seq<(string, string)>): (r: seq<UserRank>)
    ensures |r| == |top|
    ensures forall i :: 0 <= i < |top| ==> r[i].user == top[i].0 && r[i].pins == top[i].1
  {
    seq(|top|, i requires 0 <= i < |top| => UserRank(top[i].0, top[i].1, ValueOf(avatars, top[i].0)))
  }

  function ReactionRanks(top: seq<((string, PinDetails), int)>): (r: seq<ReactionRank>)
    ensures |r| == |top|
    ensures forall i :: 0 <= i < |top| ==> r[i] == ReactionRank(top[i].0.1.user, top[i].1, top[i].0.1.message, top[i].0.1.avatar)
  {
    seq(|top|, i requires 0 <= i < |top| =>
      ReactionRank(top[i].0.1.user, top[i].1, top[i].0.1.message, top[i].0.1.avatar))
  }

  /** The "Top Users" board: the three users with the most pins. */
  function TopUsers(dict: PinStoreDict): seq<UserRank> {
    UserRanks(Take(SortDesc(Tally(Users(dict))), 3), FirstAvatars(dict))
  }

  /** The "Top Reactions" board: the three pins with the most reactions. */
  function TopReactions(dict: PinStoreDict): seq<ReactionRank> {
    ReactionRanks(Take(SortDesc(ReactionEntries(dict)), 3))
  }

  /** The two boards of the dict. */
  function Report(dict: PinStoreDict): StatsReport {
    StatsReport(TopUsers(dict), TopReactions(dict))
  }

  /** What `_cmd_pin_stats` returns or raises, given `get_all_pins()`. */
  function Stats(pins: Option<seq<Pin>>, resolve: Resolver): HandlerResult {
    match pins
    case None => Raised(NotIterableText)
    case Some(ps) =>
      match Collect([], ps, resolve)
      case Faulted(e) => Raised(e)
      case Collected(dict) =>
        if !NoBlank(dict) then Raised(MissingUserText)
        else Returned(ReplyBlocks(Report(dict)))
  }

  // ---- the handler ---------------------------------------------------------

  method SumReactions(reactions: seq<int>) returns (count: int)
    ensures count == Sum(reactions)
  {
    count := 0;
    var k := 0;
    while k < |reactions|
      invariant 0 <= k <= |reactions|
      invariant count == Sum(reactions[..k])
    {
      assert reactions[..k + 1][..k] == reactions[..k];
      count := count + reactions[k];
      k := k + 1;
    }
    assert reactions[..k] == reactions;
  }

  /** `_cmd_pin_stats` over the pins table. */
  method PinStatsCmd(store: PinStore, resolve: Resolver) returns (res: HandlerResult)
    ensures res == Stats(store.GetAllPins(None), resolve)
  {
    var pins := store.GetAllPins(None);
    if pins.None? {
      return Raised(NotIterableText);
    }
    var dict := CollectPins(pins.value, resolve);
    if dict.Faulted? {
      return Raised(dict.error);
    }
    var counts, avatars, ok := CountUsers(dict.dict);
    if !ok {
      return Raised(MissingUserText);
    }
    var report := RenderBoards(dict.dict, counts, avatars);
    res := Returned(ReplyBlocks(report));
  }

  /** The first loop: one dict entry per permalink. */
  method CollectPins(pins: seq<Pin>, resolve: Resolver) returns (r: Collected)
    ensures r == Collect([], pins, resolve)
  {
    var pinStore: PinStoreDict := [];
    var i := 0;
    while i < |pins|
      invariant 0 <= i <= |pins|
      invariant Collect(pinStore, pins[i..], resolve) == Collect([], pins, resolve)
    {
      var pin := pins[i];
      assert pins[i..][0] == pin && pins[i..][1..] == pins[i + 1..];
      pinStore := Put(pinStore, pin.permalink, Blank);
      var found := resolve(pin);
      match found {
        case NoFields =>
        case Unresolvable(e) =>
          return Faulted(e);
        case ReactionsUnavailable =>
        case Resolved(channelName, userName, avatar, text, reactions) =>
          var reactionCount := 0;
          if reactions.Some? {
            reactionCount := SumReactions(reactions.value);
          }
          pinStore := Put(pinStore, pin.permalink, Filled(PinDetails(channelName, avatar, userName, text, reactionCount)));
      }
      i := i + 1;
    }
    assert pins[i..] == [];
    r := Collected(pinStore);
  }

  /** The second loop: `user_count`, split into the pin count of every user
      and the avatar of their first pin; `ok` is false when a skipped pin's
      empty dict is met (Python raises `KeyError('user')` there). */
  method CountUsers(dict: PinStoreDict) returns (counts: seq<(string, int)>, avatars: seq<(string, string)>, ok: bool)
    ensures ok <==> NoBlank(dict)
    ensures ok ==> counts == Tally(Users(dict)) && avatars == FirstAvatars(dict)
  {
    counts := [];
    avatars := [];
    var j := 0;
    while j < |dict|
      invariant 0 <= j <= |dict|
      invariant NoBlank(dict[..j])
      invariant counts == Tally(Users(dict[..j])) && avatars == FirstAvatars(dict[..j])
    {
      if dict[j].1.Blank? {
        assert !NoBlank(dict);
        return counts, avatars, false;
      }
      var details := dict[j].1.details;
      CountUsersStep(dict, j);
      avatars := SetDefault(avatars, details.user, details.avatar);
      counts := Bump(counts, details.user);
      j := j + 1;
    }
    assert dict[..j] == dict;
    ok := true;
  }

  /** One more filled pin extends the users, their tally and the first avatars by that pin's user. */
  lemma CountUsersStep(dict: PinStoreDict, j: int)
    requires 0 <= j < |dict| && NoBlank(dict[..j]) && dict[j].1.Filled?
    ensures NoBlank(dict[..j + 1])
    ensures Tally(Users(dict[..j + 1])) == Bump(Tally(Users(dict[..j])), dict[j].1.details.user)
    ensures FirstAvatars(dict[..j + 1]) == SetDefault(FirstAvatars(dict[..j]), dict[j].1.details.user, dict[j].1.details.avatar)
  {
    var pre, next := dict[..j], dict[..j + 1];
    assert next[..|next| - 1] == pre;
    assert Users(next) == Users(pre) + [dict[j].1.details.user];
    assert Users(next)[..|Users(next)| - 1] == Users(pre);
  }

  /** The two loops that append one block per board line. */
  method RenderBoards(dict: PinStoreDict, counts: seq<(string, int)>, avatars: seq<(string, string)>) returns (report: StatsReport)
    requires counts == Tally(Users(dict)) && avatars == FirstAvatars(dict)
    ensures report == Report(dict)
  {
    var userBlocks := RenderUsers(Take(SortDesc(counts), 3), avatars);
    var reactionBlocks := RenderReactions(Take(SortDesc(ReactionEntries(dict)), 3));
    report := StatsReport(userBlocks, reactionBlocks);
  }

  method RenderUsers(topUsers: seq<(string, int)>, avatars: seq<(string, string)>) returns (blocks: seq<UserRank>)
    ensures blocks == UserRanks(topUsers, avatars)
  {
    blocks := [];
    var i := 0;
    while i < |topUsers|
      invariant 0 <= i <= |topUsers|
      invariant blocks == UserRanks(topUsers[..i], avatars)
    {
      blocks := blocks + [UserRank(topUsers[i].0, topUsers[i].1, ValueOf(avatars, topUsers[i].0))];
      i := i + 1;
    }
    assert topUsers[..i] == topUsers;
  }

  method RenderReactions(topPins: seq<((string, PinDetails), int)>) returns (blocks: seq<ReactionRank>)
    ensures blocks == ReactionRanks(topPins)
  {
    blocks := [];
    var i := 0;
    while i < |topPins|
      invariant 0 <= i <= |topPins|
      invariant blocks == ReactionRanks(topPins[..i])
    {
      var data := topPins[i].0.1;
      blocks := blocks + [ReactionRank(data.user, topPins[i].1, data.message, data.avatar)];
      i := i + 1;
    }
    assert topPins[..i] == topPins;
  }

  // ---- what the boards say ---------------------------------------------------

  /** The pin a block of the reaction board shows. */
  predicate ShowsPin(rank: ReactionRank, d: PinDetails) {
    rank == ReactionRank(d.user, d.reactionCount, d.message, d.avatar)
  }

  /** "Top Users": at most three users, most pins first, each with the number
      of stored pins they wrote, no user twice, and nobody left out has more
      pins than the last one shown. */
  lemma TopUsersMeaning(dict: PinStoreDict)
    ensures var us := Users(dict);
      var r := TopUsers(dict);
      && |r| == (if |Distinct(us)| <= 3 then |Distinct(us)| else 3)
      && (forall i, j :: 0 <= i < j < |r| ==> r[i].pins >= r[j].pins && r[i].user != r[j].user)
      && (forall i :: 0 <= i < |r| ==> r[i].user in us && r[i].pins == Occurrences(us, r[i].user))
      && (forall u :: u in us && (forall i :: 0 <= i < |r| ==> r[i].user != u) ==>
            |r| == 3 && Occurrences(us, u) <= r[2].pins)
  {
    var us := Users(dict);
    var top := Take(SortDesc(Tally(us)), 3);
    var r := TopUsers(dict);
    TopOfTally(us, 3);
    forall u | u in us && (forall i :: 0 <= i < |r| ==> r[i].user != u)
      ensures |r| == 3 && Occurrences(us, u) <= r[2].pins
    {
      assert u !in Keys(top);
    }
    forall i, j | 0 <= i < j < |r| ensures r[i].user != r[j].user {
      assert Keys(top)[i] != Keys(top)[j];
    }
  }

  /** The first stored pin written by `u`. */
  predicate FirstPinOf(dict: PinStoreDict, u: string, p: int) {
    && 0 <= p < |dict| && dict[p].1.Filled? && dict[p].1.details.user == u
    && forall q :: 0 <= q < p ==> !(dict[q].1.Filled? && dict[q].1.details.user == u)
  }

  lemma {:induction false} ValueOfAppend(d: seq<(string, string)>, k: string, v: string, u: string)
    ensures u in Keys(d) ==> ValueOf(d + [(k, v)], u) == ValueOf(d, u)
    ensures u !in Keys(d) && u == k ==> ValueOf(d + [(k, v)], u) == v
  {
    if d != [] {
      assert (d + [(k, v)])[1..] == d[1..] + [(k, v)];
      assert Keys(d) == [d[0].0] + Keys(d[1..]);
      ValueOfAppend(d[1..], k, v, u);
    }
  }

  /** The avatar shown for a user is the one of their first stored pin. */
  lemma {:induction false} FirstAvatarsMeaning(dict: PinStoreDict)
    ensures forall u :: u in Keys(FirstAvatars(dict)) <==>
              exists p :: 0 <= p < |dict| && dict[p].1.Filled? && dict[p].1.details.user == u
    ensures forall u, p :: FirstPinOf(dict, u, p) ==> ValueOf(FirstAvatars(dict), u) == dict[p].1.details.avatar
  {
    if dict != [] {
      var init := dict[..|dict| - 1];
      var last := dict[|dict| - 1];
      var d := FirstAvatars(init);
      FirstAvatarsMeaning(init);
      assert forall u :: u in Keys(FirstAvatars(dict)) <==> u in Keys(d) || (last.1.Filled? && u == last.1.details.user) by {
        if last.1.Filled? {
          assert Keys(d + [(last.1.details.user, last.1.details.avatar)]) == Keys(d) + [last.1.details.user];
        }
      }
      forall u
        ensures u in Keys(FirstAvatars(dict)) <==>
                exists p :: 0 <= p < |dict| && dict[p].1.Filled? && dict[p].1.details.user == u
      {
        if exists p :: 0 <= p < |dict| && dict[p].1.Filled? && dict[p].1.details.user == u {
          var p :| 0 <= p < |dict| && dict[p].1.Filled? && dict[p].1.details.user == u;
          if p < |init| {
            assert init[p] == dict[p];
          }
        }
        if u in Keys(d) {
          var p :| 0 <= p < |init| && init[p].1.Filled? && init[p].1.details.user == u;
          assert dict[p] == init[p];
        }
      }
      forall u, p | FirstPinOf(dict, u, p)
        ensures ValueOf(FirstAvatars(dict), u) == dict[p].1.details.avatar
      {
        if last.1.Filled? {
          ValueOfAppend(d, last.1.details.user, last.1.details.avatar, u);
        }
        if p < |init| {
          assert init[p] == dict[p];
          assert FirstPinOf(init, u, p);
          assert u in Keys(d);
        }
      }
    }
  }

  /** Every user on the board is shown with the avatar of their first pin. */
  lemma TopUsersAvatars(dict: PinStoreDict)
    ensures var r := TopUsers(dict);
      forall i, p :: 0 <= i < |r| && FirstPinOf(dict, r[i].user, p) ==> r[i].avatar == dict[p].1.details.avatar
  {
    FirstAvatarsMeaning(dict);
  }

  /** Some line of the board shows the pin. */
  predicate OnBoard(r: seq<ReactionRank>, d: PinDetails) {
    exists i :: 0 <= i < |r| && ShowsPin(r[i], d)
  }

  /** The reaction board of any list of ranked pins. */
  lemma ReactionRanksOfTop(es: seq<((string, PinDetails), int)>)
    requires forall p :: 0 <= p < |es| ==> es[p].1 == es[p].0.1.reactionCount
    ensures var r := ReactionRanks(Take(SortDesc(es), 3));
      && |r| == (if |es| <= 3 then |es| else 3)
      && (forall i, j :: 0 <= i < j < |r| ==> r[i].reactions >= r[j].reactions)
      && (forall i :: 0 <= i < |r| ==> exists p :: 0 <= p < |es| && ShowsPin(r[i], es[p].0.1))
      && (forall p :: 0 <= p < |es| && (|r| < 3 || es[p].1 > r[2].reactions) ==> OnBoard(r, es[p].0.1))
  {
    var top := Take(SortDesc(es), 3);
    var r := ReactionRanks(top);
    TopOfSorted(es, 3);
  }

  /** "Top Reactions": at most three stored pins, most reactions first, each
      line a pin of the dict with its reaction count, and every pin with more
      reactions than the last line shown is on the board. */
  lemma TopReactionsMeaning(dict: PinStoreDict)
    ensures var f := FilledEntries(dict);
      var r := TopReactions(dict);
      && |r| == (if |f| <= 3 then |f| else 3)
      && (forall i, j :: 0 <= i < j < |r| ==> r[i].reactions >= r[j].reactions)
      && (forall i :: 0 <= i < |r| ==> exists p :: 0 <= p < |f| && ShowsPin(r[i], f[p].1))
      && (forall p :: 0 <= p < |f| && (|r| < 3 || f[p].1.reactionCount > r[2].reactions) ==> OnBoard(r, f[p].1))
  {
    var f := FilledEntries(dict);
    var es := ReactionEntries(dict);
    var r := TopReactions(dict);
    ReactionRanksOfTop(es);
    assert r == ReactionRanks(Take(SortDesc(es), 3));
    forall i | 0 <= i < |r| ensures exists p :: 0 <= p < |f| && ShowsPin(r[i], f[p].1) {
      var p :| 0 <= p < |es| && ShowsPin(r[i], es[p].0.1);
      assert es[p].0 == f[p];
    }
    forall p | 0 <= p < |f| && (|r| < 3 || f[p].1.reactionCount > r[2].reactions) ensures OnBoard(r, f[p].1) {
      assert es[p] == (f[p], f[p].1.reactionCount);
    }
  }

  // ---- the collecting loop ---------------------------------------------------

  /** The dict gets one entry per distinct permalink and no other key. */
  lemma {:induction false} CollectKeys(dict: PinStoreDict, pins: seq<Pin>, resolve: Resolver)
    requires NoDup(Keys(dict))
    ensures Collect(dict, pins, resolve).Collected? ==>
      var d := Collect(dict, pins, resolve).dict;
      && NoDup(Keys(d))
      && forall k :: k in Keys(d) <==> k in Keys(dict) || exists i :: 0 <= i < |pins| && pins[i].permalink == k
    decreases |pins|
  {
    if pins != [] {
      var k := pins[0].permalink;
      var cleared := Put(dict, k, Blank);
      PutKeySet(dict, k, Blank);
      var next := if resolve(pins[0]).Resolved? then Put(cleared, k, Filled(DetailsOf(resolve(pins[0])))) else cleared;
      if resolve(pins[0]).Resolved? {
        PutKeySet(cleared, k, Filled(DetailsOf(resolve(pins[0]))));
      }
      if !resolve(pins[0]).Unresolvable? {
        CollectKeys(next, pins[1..], resolve);
        if Collect(dict, pins, resolve).Collected? {
          var d := Collect(dict, pins, resolve).dict;
          forall x | x in Keys(d) ensures x in Keys(dict) || exists i :: 0 <= i < |pins| && pins[i].permalink == x {
            if x !in Keys(next) {
              var i :| 0 <= i < |pins[1..]| && pins[1..][i].permalink == x;
              assert pins[i + 1].permalink == x;
            }
          }
          forall x | x in Keys(dict) || exists i :: 0 <= i < |pins| && pins[i].permalink == x
            ensures x in Keys(d)
          {
            if x !in Keys(dict) && x != k {
              var i :| 0 <= i < |pins| && pins[i].permalink == x;
              assert pins[1..][i - 1].permalink == x;
            }
          }
        }
      }
    }
  }

  /** The loop stops exactly when a lookup raises, with the first such error. */
  lemma {:induction false} CollectFaults(dict: PinStoreDict, pins: seq<Pin>, resolve: Resolver)
    ensures Collect(dict, pins, resolve).Faulted? <==> exists i :: 0 <= i < |pins| && resolve(pins[i]).Unresolvable?
    ensures Collect(dict, pins, resolve).Faulted? ==>
      exists i :: 0 <= i < |pins| && resolve(pins[i]) == Unresolvable(Collect(dict, pins, resolve).error) &&
                  forall j :: 0 <= j < i ==> !resolve(pins[j]).Unresolvable?
    decreases |pins|
  {
    if pins != [] && !resolve(pins[0]).Unresolvable? {
      var cleared := Put(dict, pins[0].permalink, Blank);
      var next := if resolve(pins[0]).Resolved? then Put(cleared, pins[0].permalink, Filled(DetailsOf(resolve(pins[0])))) else cleared;
      CollectFaults(next, pins[1..], resolve);
      assert forall i :: 0 <= i < |pins[1..]| ==> pins[1..][i] == pins[i + 1];
      if exists i :: 0 <= i < |pins| && resolve(pins[i]).Unresolvable? {
        var i :| 0 <= i < |pins| && resolve(pins[i]).Unresolvable?;
        assert resolve(pins[1..][i - 1]).Unresolvable?;
      }
      if Collect(dict, pins, resolve).Faulted? {
        var e := Collect(dict, pins, resolve).error;
        var i :| 0 <= i < |pins[1..]| && resolve(pins[1..][i]) == Unresolvable(e) &&
                 forall j :: 0 <= j < i ==> !resolve(pins[1..][j]).Unresolvable?;
        assert forall j :: 0 <= j < i + 1 ==> !resolve(pins[j]).Unresolvable?;
      }
    }
  }

  // ---- a skipped pin ends the command ----------------------------------------

  /** A pin skipped with `continue` leaves the empty dict it was given under
      its permalink; while no later pin has that permalink it stays there. */
  lemma {:induction false} PutKeepsOther(d: PinStoreDict, k: string, v: Entry, x: string, e: Entry)
    requires (x, e) in d && x != k
    ensures (x, e) in Put(d, k, v)
  {
    if d != [] && d[0].0 != k && d[0] != (x, e) {
      PutKeepsOther(d[1..], k, v, x, e);
    }
  }

  lemma {:induction false} CollectKeepsEntry(dict: PinStoreDict, pins: seq<Pin>, resolve: Resolver, x: string, e: Entry)
    requires (x, e) in dict
    requires forall i :: 0 <= i < |pins| ==> pins[i].permalink != x
    ensures Collect(dict, pins, resolve).Collected? ==> (x, e) in Collect(dict, pins, resolve).dict
    decreases |pins|
  {
    if pins != [] && !resolve(pins[0]).Unresolvable? {
      var k := pins[0].permalink;
      var cleared := Put(dict, k, Blank);
      PutKeepsOther(dict, k, Blank, x, e);
      var next := if resolve(pins[0]).Resolved? then Put(cleared, k, Filled(DetailsOf(resolve(pins[0])))) else cleared;
      if resolve(pins[0]).Resolved? {
        PutKeepsOther(cleared, k, Filled(DetailsOf(resolve(pins[0]))), x, e);
      }
      assert forall i :: 0 <= i < |pins[1..]| ==> pins[1..][i].permalink != x;
      CollectKeepsEntry(next, pins[1..], resolve, x, e);
    }
  }

  lemma {:induction false} PutHasEntry(d: PinStoreDict, k: string, v: Entry)
    ensures (k, v) in Put(d, k, v)
  {
    if d != [] && d[0].0 != k {
      PutHasEntry(d[1..], k, v);
    }
  }

  /** The pins before position `n` leave the loop running or stop it. */
  lemma {:induction false} CollectSplit(dict: PinStoreDict, pins: seq<Pin>, resolve: Resolver, n: nat)
    requires n <= |pins|
    requires forall i :: 0 <= i < n ==> !resolve(pins[i]).Unresolvable?
    ensures Collect(dict, pins[..n], resolve).Collected?
    ensures Collect(dict, pins, resolve) == Collect(Collect(dict, pins[..n], resolve).dict, pins[n..], resolve)
    decreases n
  {
    if n > 0 {
      var cleared := Put(dict, pins[0].permalink, Blank);
      var next := if resolve(pins[0]).Resolved? then Put(cleared, pins[0].permalink, Filled(DetailsOf(resolve(pins[0])))) else cleared;
      assert pins[..n][0] == pins[0] && pins[..n][1..] == pins[1..][..n - 1];
      assert pins[1..][n - 1..] == pins[n..];
      CollectSplit(next, pins[1..], resolve, n - 1);
    }
  }

  /** As written, one pin the loop skips (its message is empty, or its
      reactions cannot be fetched) makes the whole command raise
      `KeyError('user')`, unless a later pin shares its permalink. */
  lemma SkippedPinFailsStats(pins: seq<Pin>, resolve: Resolver, n: nat)
    requires n < |pins| && (resolve(pins[n]).NoFields? || resolve(pins[n]).ReactionsUnavailable?)
    requires forall i :: 0 <= i < |pins| ==> !resolve(pins[i]).Unresolvable?
    requires forall i :: n < i < |pins| ==> pins[i].permalink != pins[n].permalink
    ensures Stats(Some(pins), resolve) == Raised(MissingUserText)
  {
    var x := pins[n].permalink;
    CollectSplit([], pins, resolve, n);
    var before := Collect([], pins[..n], resolve).dict;
    var after := Put(before, x, Blank);
    PutHasEntry(before, x, Blank);
    assert pins[n..][0] == pins[n];
    assert Collect(before, pins[n..], resolve) == Collect(after, pins[n + 1..], resolve);
    var rest := pins[n + 1..];
    forall i | 0 <= i < |rest| ensures rest[i].permalink != x {
      assert rest[i] == pins[n + 1 + i];
    }
    CollectFaults(after, pins[n + 1..], resolve);
    CollectKeepsEntry(after, pins[n + 1..], resolve, x, Blank);
    var d := Collect([], pins, resolve).dict;
    assert (x, Blank) in d;
    assert !NoBlank(d);
  }

  /** A table with one pin whose message is empty: the command raises. */
  lemma OneEmptyPinFailsStats()
    ensures Stats(Some([Pin("C1", "1600000000.000100", "{}", "https://team.slack.com/archives/C1/p1600000000000100")]),
                  p => NoFields) == Raised(MissingUserText)
  {
  }

  /** The stored message `"{}"` parses to a dict without keys, which the
      handler skips: a resolver that reads the stored message says so. */
  predicate SkipsEmptyMessages(pins: seq<Pin>, resolve: Resolver) {
    forall i :: 0 <= i < |pins| && pins[i].json == "{}" ==> resolve(pins[i]).NoFields?
  }

  /** `pin add` stores `"{}"` when the history holds no message; once such a
      pin is in the store (and no later pin shares its permalink), every
      `pin stats` that gets past the lookups raises `KeyError('user')`. */
  lemma EmptyHistoryPinFailsStats(pins: seq<Pin>, resolve: Resolver, n: nat)
    requires n < |pins| && pins[n].json == MessageJson([])
    requires SkipsEmptyMessages(pins, resolve)
    requires forall i :: 0 <= i < |pins| ==> !resolve(pins[i]).Unresolvable?
    requires forall i :: n < i < |pins| ==> pins[i].permalink != pins[n].permalink
    ensures Stats(Some(pins), resolve) == Raised(MissingUserText)
  {
    assert resolve(pins[n]).NoFields?;
    SkippedPinFailsStats(pins, resolve, n);
  }

  /** What the handler evidently means to do: skipped pins stay out of both
      boards instead of ending the command. */
  function StatsSkippingBlank(pins: Option<seq<Pin>>, resolve: Resolver): HandlerResult {
    match pins
    case None => Raised(NotIterableText)
    case Some(ps) =>
      match Collect([], ps, resolve)
      case Faulted(e) => Raised(e)
      case Collected(dict) => Returned(ReplyBlocks(Report(dict)))
  }

  /** With skipped pins left out, the command answers whenever no lookup
      raises, and it agrees with the handler as written when nothing is
      skipped. */
  lemma StatsSkippingBlankAnswers(pins: seq<Pin>, resolve: Resolver)
    ensures StatsSkippingBlank(Some(pins), resolve).Returned? <==>
              forall i :: 0 <= i < |pins| ==> !resolve(pins[i]).Unresolvable?
    ensures Stats(Some(pins), resolve).Returned? ==> StatsSkippingBlank(Some(pins), resolve) == Stats(Some(pins), resolve)
  {
    CollectFaults([], pins, resolve);
  }
}
