/**
 * The permalink parser of STTBot/models/permalink.py. The pattern
 *
 *   <?https://(.+).slack.com/archives/(.+?)/p(\d{16})>?
 *
 * is applied with `re.match`, so it is anchored at the start of the text
 * only; the two dots of ".slack.com" are unescaped and match any character
 * but a newline; the server group is greedy and the channel group lazy.
 */
module Permalinks {
  import opened Common
  import opened Text

  /** The `Permalink` record: the raw text and the three captured parts, the
      digit group already turned into a timestamp. */
  datatype Permalink = Permalink(permalink: string, server: string, channel: string, timestamp: string)

  predicate NoNewline(s: string) {
    forall i :: 0 <= i < |s| ==> s[i] != '\n'
  }

  /** `\d`, restricted to ASCII digits. */
  predicate IsDigit(c: char) { '0' <= c <= '9' }

  predicate AllDigits(s: string) {
    forall i :: 0 <= i < |s| ==> IsDigit(s[i])
  }

  /** The text after an optional leading '<'. A '<' the optional `<?` does
      not take would have to match the 'h' of "https", so taking it is the
      only way to succeed. */
  function Body(text: string): string {
    if text != [] && text[0] == '<' then text[1..] else text
  }

  predicate HasScheme(body: string) {
    |body| >= 8 && body[..8] == "https://"
  }

  /** What follows "https://". */
  function Rest(text: string): string {
    var body := Body(text);
    if HasScheme(body) then body[8..] else []
  }

  /** `.slack.com/archives/` starting at position n of `rest` (20 characters). */
  predicate DomainAt(rest: string, n: nat) {
    n + 20 <= |rest| && rest[n] != '\n' && rest[n + 1..n + 6] == "slack" &&
    rest[n + 6] != '\n' && rest[n + 7..n + 20] == "com/archives/"
  }

  /** The pattern matches `rest` (the text after "https://") with a server
      group of n characters and a channel group of m characters. */
  predicate MatchesAt(rest: string, n: nat, m: nat) {
    1 <= n && 1 <= m && n + m + 38 <= |rest| &&
    NoNewline(rest[..n]) && DomainAt(rest, n) &&
    NoNewline(rest[n + 20..n + 20 + m]) &&
    rest[n + 20 + m..n + 22 + m] == "/p" &&
    AllDigits(rest[n + 22 + m..n + 38 + m])
  }

  /** `re.match(permalink_regex, text)` succeeds. */
  ghost predicate IsPermalink(text: string) {
    HasScheme(Body(text)) && exists n, m :: MatchesAt(Rest(text), n, m)
  }

  /** The lazy channel group: the shortest length, from m upwards, that lets
      the rest of the pattern match after a server of n characters. */
  function FindChannel(rest: string, n: nat, m: nat): Option<nat>
    decreases |rest| - m
  {
    if n + m + 38 > |rest| then None
    else if MatchesAt(rest, n, m) then Some(m)
    else FindChannel(rest, n, m + 1)
  }

  lemma {:induction false} FindChannelSpec(rest: string, n: nat, m: nat)
    requires 1 <= m
    ensures var r := FindChannel(rest, n, m);
      && (r.Some? ==> m <= r.value && MatchesAt(rest, n, r.value))
      && (r.Some? ==> forall k :: m <= k < r.value ==> !MatchesAt(rest, n, k))
      && (r.None? ==> forall k :: m <= k ==> !MatchesAt(rest, n, k))
    decreases |rest| - m
  {
    if n + m + 38 <= |rest| && !MatchesAt(rest, n, m) {
      FindChannelSpec(rest, n, m + 1);
    }
  }

  /** The greedy server group: the longest length, from n downwards, for which
      some channel length completes the match, paired with the shortest such
      channel length. This is the order in which the regex engine backtracks. */
  function FindServer(rest: string, n: nat): Option<(nat, nat)>
    decreases n
  {
    if n == 0 then None
    else
      match FindChannel(rest, n, 1)
      case Some(m) => Some((n, m))
      case None => FindServer(rest, n - 1)
  }

  lemma {:induction false} FindServerSpec(rest: string, n: nat)
    ensures var r := FindServer(rest, n);
      && (r.Some? ==> 1 <= r.value.0 <= n && MatchesAt(rest, r.value.0, r.value.1))
      && (r.Some? ==> forall k :: 1 <= k < r.value.1 ==> !MatchesAt(rest, r.value.0, k))
      && (r.Some? ==> forall a: nat, b: nat :: r.value.0 < a <= n ==> !MatchesAt(rest, a, b))
      && (r.None? ==> forall a: nat, b: nat :: a <= n ==> !MatchesAt(rest, a, b))
    decreases n
  {
    if n > 0 {
      FindChannelSpec(rest, n, 1);
      if FindChannel(rest, n, 1).None? {
        FindServerSpec(rest, n - 1);
        forall b: nat ensures !MatchesAt(rest, n, b) {
        }
      }
    }
  }

  /** `f"{D[:-6]}.{D[-5:]}"` for the 16-digit group D: the first ten digits, a
      dot, the last five. The digit at index 10 is not kept. */
  function TimestampFromDigits(d: string): (ts: string)
    requires |d| == 16
    ensures |ts| == 16 && ts[10] == '.'
    ensures ts[..10] == d[..10] && ts[11..] == d[11..]
  {
    d[..10] + "." + d[11..]
  }

  /** The record `from_text` builds once the groups have n and m characters. */
  function RecordAt(text: string, n: nat, m: nat): Permalink
    requires n + m + 38 <= |Rest(text)|
  {
    var rest := Rest(text);
    Permalink(text, rest[..n], rest[n + 20..n + 20 + m], TimestampFromDigits(rest[n + 22 + m..n + 38 + m]))
  }

  /** `Permalink.from_text(text)`. */
  function FromText(text: string): Option<Permalink>
  {
    if !HasScheme(Body(text)) then None
    else
      var rest := Rest(text);
      FindServerSpec(rest, |rest|);
      match FindServer(rest, |rest|)
      case None => None
      case Some((n, m)) => Some(RecordAt(text, n, m))
  }

  /** `from_text` yields None exactly when the pattern does not match at the
      start of the text. */
  lemma FromTextNone(text: string)
    ensures FromText(text).None? <==> !IsPermalink(text)
  {
    if HasScheme(Body(text)) {
      FindServerSpec(Rest(text), |Rest(text)|);
    }
  }

  /** A match found with groups of n and m characters yields a record with
      every field set. */
  lemma RecordAtFields(text: string, n: nat, m: nat)
    requires MatchesAt(Rest(text), n, m)
    ensures var p := RecordAt(text, n, m);
      && p.permalink == text
      && p.server != [] && NoNewline(p.server)
      && p.channel != [] && NoNewline(p.channel)
      && |p.timestamp| == 16 && p.timestamp[10] == '.'
      && forall i :: 0 <= i < 16 && i != 10 ==> IsDigit(p.timestamp[i])
  {
    var rest := Rest(text);
    var d := rest[n + 22 + m..n + 38 + m];
    var ts := TimestampFromDigits(d);
    forall i | 0 <= i < 16 && i != 10
      ensures IsDigit(ts[i])
    {
      if i < 10 {
        assert ts[i] == ts[..10][i] == d[i];
      } else {
        assert ts[i] == ts[11..][i - 11] == d[i];
      }
    }
  }

  /** `from_text` yields None exactly when the pattern does not match at the
      start of the text, and otherwise a record with every field set: the
      text itself, a non-empty server and channel without newlines, and a
      16-character timestamp with a dot at index 10 and digits elsewhere. */
  lemma FromTextSpec(text: string)
    ensures var r := FromText(text);
      && (r.None? <==> !IsPermalink(text))
      && (r.Some? ==> r.value.permalink == text)
      && (r.Some? ==> r.value.server != [] && NoNewline(r.value.server))
      && (r.Some? ==> r.value.channel != [] && NoNewline(r.value.channel))
      && (r.Some? ==> |r.value.timestamp| == 16 && r.value.timestamp[10] == '.')
      && (r.Some? ==> forall i :: 0 <= i < 16 && i != 10 ==> IsDigit(r.value.timestamp[i]))
  {
    FromTextNone(text);
    if FromText(text).Some? {
      var rest := Rest(text);
      FindServerSpec(rest, |rest|);
      var n, m := FindServer(rest, |rest|).value.0, FindServer(rest, |rest|).value.1;
      assert FromText(text) == Some(RecordAt(text, n, m));
      RecordAtFields(text, n, m);
    }
  }

  /** Re-encoding a parsed timestamp the way permalinks are built (dropping
      the dot) does not give the digit group back: the digit at index 10 is
      lost, so the result is one digit short. */
  lemma {:induction false} ReencodeLosesDigit(d: string)
    requires |d| == 16 && AllDigits(d)
    ensures Remove(TimestampFromDigits(d), '.') == d[..10] + d[11..]
    ensures |Remove(TimestampFromDigits(d), '.')| == 15
  {
    var ts := TimestampFromDigits(d);
    assert ts == d[..10] + "." + d[11..];
    RemoveAppend(d[..10] + ".", d[11..], '.');
    RemoveAppend(d[..10], ".", '.');
    RemoveAbsent(d[..10], '.');
    RemoveAbsent(d[11..], '.');
  }

  /** The permalink Slack builds: the server, the channel id and the message
      timestamp's 16 digits. */
  function SlackLink(server: string, channel: string, digits: string): string {
    "https://" + server + ".slack.com/archives/" + channel + "/p" + digits
  }

  predicate NoSlash(s: string) {
    forall i :: 0 <= i < |s| ==> s[i] != '/'
  }

  /** Where the slashes are in the part of a Slack link after "https://". */
  lemma {:induction false} SlashesOfLink(server: string, channel: string, digits: string, i: int)
    requires NoSlash(server) && NoSlash(channel) && AllDigits(digits)
    requires 0 <= i < |server + ".slack.com/archives/" + channel + "/p" + digits|
    requires (server + ".slack.com/archives/" + channel + "/p" + digits)[i] == '/'
    ensures i == |server| + 10 || i == |server| + 19 || i == |server| + 20 + |channel|
  {
    var rest := server + ".slack.com/archives/" + channel + "/p" + digits;
    var s, c := |server|, |channel|;
    if i < s {
      assert false;
    } else if i < s + 20 {
      assert rest[i] == ".slack.com/archives/"[i - s];
    } else if i < s + 20 + c {
      assert false;
    } else if i < s + 22 + c {
      assert rest[i] == "/p"[i - s - 20 - c];
    } else {
      assert false;
    }
  }

  lemma {:induction false} LinkMatches(server: string, channel: string, digits: string)
    requires server != [] && NoNewline(server)
    requires channel != [] && NoNewline(channel)
    requires |digits| == 16 && AllDigits(digits)
    ensures MatchesAt(server + ".slack.com/archives/" + channel + "/p" + digits, |server|, |channel|)
  {
    var rest := server + ".slack.com/archives/" + channel + "/p" + digits;
    var s, c := |server|, |channel|;
    assert rest[..s] == server;
    assert rest[s..s + 20] == ".slack.com/archives/";
    var dom := ".slack.com/archives/";
    assert dom[1..6] == "slack" && dom[7..] == "com/archives/";
    assert rest[s] == '.' && rest[s + 6] == '.';
    assert rest[s + 1..s + 6] == rest[s..s + 20][1..6];
    assert rest[s + 7..s + 20] == rest[s..s + 20][7..];
    assert rest[s + 20..s + 20 + c] == channel;
    assert rest[s + 20 + c..s + 22 + c] == "/p";
    assert rest[s + 22 + c..s + 38 + c] == digits;
  }

  /** In a Slack link without slashes in the server or the channel, the only
      way to match is with exactly that server and that channel. */
  lemma {:induction false} LinkMatchIsUnique(server: string, channel: string, digits: string, a: nat, b: nat)
    requires NoSlash(server) && NoSlash(channel) && AllDigits(digits)
    requires MatchesAt(server + ".slack.com/archives/" + channel + "/p" + digits, a, b)
    ensures a == |server| && b == |channel|
  {
    var rest := server + ".slack.com/archives/" + channel + "/p" + digits;
    assert rest[a + 10] == rest[a + 7..a + 20][3] == '/';
    assert rest[a + 19] == rest[a + 7..a + 20][12] == '/';
    assert rest[a + 20 + b] == rest[a + 20 + b..a + 22 + b][0] == '/';
    SlashesOfLink(server, channel, digits, a + 10);
    SlashesOfLink(server, channel, digits, a + 19);
    SlashesOfLink(server, channel, digits, a + 20 + b);
  }

  /** `FromText` once the search has settled on the two group lengths. */
  lemma FromTextWhenFound(text: string, n: nat, m: nat)
    requires HasScheme(Body(text))
    requires FindServer(Rest(text), |Rest(text)|) == Some((n, m))
    ensures n + m + 38 <= |Rest(text)|
    ensures FromText(text) == Some(RecordAt(text, n, m))
  {
    FindServerSpec(Rest(text), |Rest(text)|);
  }

  lemma {:induction false} RestOfLink(server: string, channel: string, digits: string)
    ensures HasScheme(Body(SlackLink(server, channel, digits)))
    ensures Rest(SlackLink(server, channel, digits)) == server + ".slack.com/archives/" + channel + "/p" + digits
  {
    var text := SlackLink(server, channel, digits);
    var rest := server + ".slack.com/archives/" + channel + "/p" + digits;
    assert text == "https://" + rest;
    assert Body(text) == text;
  }

  /** Parsing a Slack link whose server and channel contain no slash and no
      newline recovers the server and the channel exactly; the timestamp is
      built from the 16 digits by the slicing above. */
  lemma {:induction false} FromTextOfLink(server: string, channel: string, digits: string)
    requires server != [] && NoNewline(server) && NoSlash(server)
    requires channel != [] && NoNewline(channel) && NoSlash(channel)
    requires |digits| == 16 && AllDigits(digits)
    ensures FromText(SlackLink(server, channel, digits)) ==
              Some(Permalink(SlackLink(server, channel, digits), server, channel, TimestampFromDigits(digits)))
  {
    var text := SlackLink(server, channel, digits);
    var rest := server + ".slack.com/archives/" + channel + "/p" + digits;
    var s, c := |server|, |channel|;
    RestOfLink(server, channel, digits);
    LinkMatches(server, channel, digits);
    var r := FindServer(rest, |rest|);
    FindServerSpec(rest, |rest|);
    assert r.Some?;
    var n, m := r.value.0, r.value.1;
    LinkMatchIsUnique(server, channel, digits, n, m);
    assert rest[..s] == server;
    assert rest[s + 20..s + 20 + c] == channel;
    assert rest[s + 22 + c..s + 38 + c] == digits;
    FromTextWhenFound(text, n, m);
  }
}
