/**
 * The pieces of Python's string handling the bot relies on, restricted to
 * ASCII: `str.split()` with no separator, `str.lower()`, `sep.join(...)`
 * and `str.replace(c, "")`.
 */
module Text {

  /** Whitespace as `str.split()` sees it, within ASCII: space, \t \n \v \f \r
      and the four separators \x1c-\x1f. */
  predicate IsSpace(c: char) {
    c == ' ' || ('\t' <= c <= '\r') || ('\U{1C}' <= c <= '\U{1F}')
  }

  /** A word produced by `str.split()`: non-empty, without whitespace. */
  predicate IsWord(w: string) {
    w != [] && forall i :: 0 <= i < |w| ==> !IsSpace(w[i])
  }

  /** ASCII `lower()` of one character. */
  function Lower(c: char): (d: char)
    ensures 'A' <= c <= 'Z' ==> d as int == c as int + 32
    ensures !('A' <= c <= 'Z') ==> d == c
  {
    if 'A' <= c <= 'Z' then (c as int + 32) as char else c
  }

  /** ASCII `str.lower()`. */
  function LowerStr(s: string): (r: string)
    ensures |r| == |s|
    ensures forall i :: 0 <= i < |s| ==> r[i] == Lower(s[i])
  {
    seq(|s|, i requires 0 <= i < |s| => Lower(s[i]))
  }

  lemma LowerIsIdempotent(s: string)
    ensures LowerStr(LowerStr(s)) == LowerStr(s)
  {
  }

  /** Lower-casing never creates or removes whitespace, so words stay words. */
  lemma LowerKeepsWord(w: string)
    requires IsWord(w)
    ensures IsWord(LowerStr(w))
  {
  }

  /** The suffix of `s` left after skipping its leading whitespace. */
  function SkipSpace(s: string): (r: string)
    ensures |r| <= |s| && r == s[|s| - |r|..]
    ensures r == [] || !IsSpace(r[0])
  {
    if s != [] && IsSpace(s[0]) then SkipSpace(s[1..]) else s
  }

  /** The length of the longest prefix of `s` without whitespace. */
  function WordLength(s: string): (n: nat)
    ensures n <= |s|
    ensures forall i :: 0 <= i < n ==> !IsSpace(s[i])
    ensures n < |s| ==> IsSpace(s[n])
  {
    if s == [] || IsSpace(s[0]) then 0 else 1 + WordLength(s[1..])
  }

  /** Python's `s.split()`: the maximal runs of non-whitespace, in order. */
  function Split(s: string): seq<string>
    decreases |s|
  {
    var t := SkipSpace(s);
    if t == [] then []
    else
      var n := WordLength(t);
      assert n > 0;
      [t[..n]] + Split(t[n..])
  }

  /** The longest whitespace-free prefix of a text that does not start with
      whitespace is a word. */
  lemma WordAtStart(t: string)
    requires t != [] && !IsSpace(t[0])
    ensures IsWord(t[..WordLength(t)])
  {
  }

  /** A list of words stays a list of words with a word put in front. */
  lemma WordsCons(w: string, rest: seq<string>)
    requires IsWord(w)
    requires forall k :: 0 <= k < |rest| ==> IsWord(rest[k])
    ensures forall k :: 0 <= k < |[w] + rest| ==> IsWord(([w] + rest)[k])
  {
  }

  /** Every piece `split()` returns is a word. */
  lemma {:induction false} SplitWords(s: string)
    ensures forall k :: 0 <= k < |Split(s)| ==> IsWord(Split(s)[k])
    decreases |s|
  {
    var t := SkipSpace(s);
    if t != [] {
      var n := WordLength(t);
      SplitWords(t[n..]);
      WordAtStart(t);
      WordsCons(t[..n], Split(t[n..]));
      assert Split(s) == [t[..n]] + Split(t[n..]);
    }
  }

  /** `split()` returns no word exactly when the text is empty or all whitespace. */
  lemma SplitEmpty(s: string)
    ensures Split(s) == [] <==> forall i :: 0 <= i < |s| ==> IsSpace(s[i])
  {
    var t := SkipSpace(s);
    if t != [] {
      assert Split(s) != [];
      assert s[|s| - |t|] == t[0];
    } else {
      assert Split(s) == [];
    }
  }

  /** Python's `sep.join(ws)`. */
  function Join(ws: seq<string>, sep: string): (r: string)
  {
    if ws == [] then []
    else if |ws| == 1 then ws[0]
    else ws[0] + sep + Join(ws[1..], sep)
  }

  /** The concatenation of a list of strings, `"".join(ws)`. */
  function Concat(ws: seq<string>): string
  {
    if ws == [] then [] else ws[0] + Concat(ws[1..])
  }

  /** The characters of `s` that are not whitespace, in order. */
  function NonSpace(s: string): (r: string)
    ensures |r| <= |s|
  {
    if s == [] then []
    else (if IsSpace(s[0]) then [] else [s[0]]) + NonSpace(s[1..])
  }

  /** `s.replace(c, "")`: every occurrence of `c` removed. */
  function Remove(s: string, c: char): (r: string)
    ensures |r| <= |s|
    ensures forall i :: 0 <= i < |r| ==> r[i] != c
  {
    if s == [] then []
    else (if s[0] == c then [] else [s[0]]) + Remove(s[1..], c)
  }

  lemma {:induction false} RemoveAppend(a: string, b: string, c: char)
    ensures Remove(a + b, c) == Remove(a, c) + Remove(b, c)
  {
    if a != [] {
      var h := if a[0] == c then [] else [a[0]];
      assert (a + b)[0] == a[0];
      assert (a + b)[1..] == a[1..] + b;
      RemoveAppend(a[1..], b, c);
      calc {
        Remove(a + b, c);
        h + Remove(a[1..] + b, c);
        h + (Remove(a[1..], c) + Remove(b, c));
        (h + Remove(a[1..], c)) + Remove(b, c);
      }
    } else {
      assert a + b == b;
    }
  }

  lemma {:induction false} RemoveAbsent(s: string, c: char)
    requires forall i :: 0 <= i < |s| ==> s[i] != c
    ensures Remove(s, c) == s
  {
    if s != [] {
      RemoveAbsent(s[1..], c);
    }
  }

  // ---- split and join -------------------------------------------------

  lemma {:induction false} SkipSpaceOfWordStart(w: string, rest: string)
    requires w != [] && !IsSpace(w[0])
    ensures SkipSpace(w + rest) == w + rest
  {
  }

  lemma {:induction false} SkipSpaceAfterSpace(rest: string)
    ensures SkipSpace(" " + rest) == SkipSpace(rest)
  {
    assert (" " + rest)[1..] == rest;
  }

  lemma {:induction false} WordLengthOfWord(w: string, rest: string)
    requires forall i :: 0 <= i < |w| ==> !IsSpace(w[i])
    requires rest == [] || IsSpace(rest[0])
    ensures WordLength(w + rest) == |w|
  {
    if w != [] {
      assert (w + rest)[1..] == w[1..] + rest;
      WordLengthOfWord(w[1..], rest);
    } else {
      assert w + rest == rest;
    }
  }

  /** Splitting a single word gives that word back. */
  lemma {:induction false} SplitWord(w: string)
    requires IsWord(w)
    ensures Split(w) == [w]
  {
    SkipSpaceOfWordStart(w, []);
    assert w + [] == w;
    WordLengthOfWord(w, []);
    assert w[|w|..] == [];
  }

  /** A word followed by a space splits off as the first word. */
  lemma {:induction false} SplitCons(w: string, rest: string)
    requires IsWord(w)
    ensures Split(w + (" " + rest)) == [w] + Split(rest)
  {
    var s := w + (" " + rest);
    SkipSpaceOfWordStart(w, " " + rest);
    assert SkipSpace(s) == s;
    WordLengthOfWord(w, " " + rest);
    assert WordLength(s) == |w|;
    assert s[..|w|] == w;
    assert s[|w|..] == " " + rest;
    SkipSpaceAfterSpace(rest);
    assert Split(s) == [w] + Split(" " + rest);
  }

  /** Joining words with single spaces and splitting again is the identity. */
  lemma {:induction false} SplitJoin(ws: seq<string>)
    requires forall k :: 0 <= k < |ws| ==> IsWord(ws[k])
    ensures Split(Join(ws, " ")) == ws
  {
    if ws == [] {
    } else if |ws| == 1 {
      SplitWord(ws[0]);
    } else {
      var tail := ws[1..];
      var rest := Join(tail, " ");
      assert Join(ws, " ") == ws[0] + " " + rest;
      assert ws[0] + " " + rest == ws[0] + (" " + rest);
      SplitCons(ws[0], rest);
      assert forall k :: 0 <= k < |tail| ==> tail[k] == ws[k + 1];
      SplitJoin(tail);
      assert [ws[0]] + tail == ws;
    }
  }

  lemma {:induction false} NonSpaceOfSkip(s: string)
    ensures NonSpace(SkipSpace(s)) == NonSpace(s)
  {
    if s != [] && IsSpace(s[0]) {
      NonSpaceOfSkip(s[1..]);
    }
  }

  lemma {:induction false} NonSpaceOfWord(t: string, n: nat)
    requires n <= |t|
    requires forall i :: 0 <= i < n ==> !IsSpace(t[i])
    ensures NonSpace(t) == t[..n] + NonSpace(t[n..])
  {
    if n > 0 {
      NonSpaceOfWord(t[1..], n - 1);
      assert t[1..][..n - 1] == t[1..n];
      assert t[1..][n - 1..] == t[n..];
      assert t[..n] == [t[0]] + t[1..n];
    }
  }

  /** `split()` loses only whitespace: gluing the words back together gives
      exactly the non-whitespace characters of the input, in order. */
  lemma {:induction false} SplitKeepsNonSpace(s: string)
    ensures Concat(Split(s)) == NonSpace(s)
    decreases |s|
  {
    var t := SkipSpace(s);
    var words := Split(s);
    NonSpaceOfSkip(s);
    if t != [] {
      var n := WordLength(t);
      var rest := Split(t[n..]);
      assert words == [t[..n]] + rest;
      assert words[0] == t[..n] && words[1..] == rest;
      NonSpaceOfWord(t, n);
      SplitKeepsNonSpace(t[n..]);
      assert Concat(words) == t[..n] + Concat(rest);
    } else {
      assert words == [];
    }
  }

  // ---- numbers and lines -------------------------------------------------

  function Digit(d: nat): (c: char)
    requires d < 10
    ensures '0' <= c <= '9'
  {
    (48 + d) as char
  }

  /** `str(n)` for a non-negative integer: its decimal digits. */
  function NatStr(n: nat): (s: string)
    ensures |s| >= 1 && forall i :: 0 <= i < |s| ==> '0' <= s[i] <= '9'
  {
    if n < 10 then [Digit(n)] else NatStr(n / 10) + [Digit(n % 10)]
  }

  /** The number a string of decimal digits denotes. */
  function DigitsValue(s: string): nat
    requires forall i :: 0 <= i < |s| ==> '0' <= s[i] <= '9'
  {
    if s == [] then 0 else 10 * DigitsValue(s[..|s| - 1]) + (s[|s| - 1] as int - 48)
  }

  /** The rendering of a count can be read back. */
  lemma {:induction false} NatStrValue(n: nat)
    ensures DigitsValue(NatStr(n)) == n
  {
    if n >= 10 {
      NatStrValue(n / 10);
      assert NatStr(n)[..|NatStr(n)| - 1] == NatStr(n / 10);
    }
  }

  /** `s.split(c)` for a one-character separator. */
  function SplitOn(s: string, c: char): (parts: seq<string>)
    ensures |parts| >= 1
    ensures forall k :: 0 <= k < |parts| ==> c !in parts[k]
  {
    if s == [] then [""]
    else
      var rest := SplitOn(s[1..], c);
      if s[0] == c then [""] + rest
      else [[s[0]] + rest[0]] + rest[1..]
  }

  lemma {:induction false} SplitOnPrefix(w: string, rest: string, c: char)
    requires c !in w
    ensures SplitOn(w + [c] + rest, c) == [w] + SplitOn(rest, c)
    ensures SplitOn(w, c) == [w]
  {
    if w != [] {
      assert (w + [c] + rest)[1..] == w[1..] + [c] + rest;
      SplitOnPrefix(w[1..], rest, c);
      assert [w[0]] + w[1..] == w;
    } else {
      assert w + [c] + rest == [c] + rest;
    }
  }

  /** Joining lines that hold no separator and splitting again gives them back. */
  lemma {:induction false} SplitOnJoin(ws: seq<string>, c: char)
    requires |ws| >= 1 && forall k :: 0 <= k < |ws| ==> c !in ws[k]
    ensures SplitOn(Join(ws, [c]), c) == ws
  {
    if |ws| == 1 {
      SplitOnPrefix(ws[0], "", c);
    } else {
      SplitOnPrefix(ws[0], Join(ws[1..], [c]), c);
      SplitOnJoin(ws[1..], c);
    }
  }
}
