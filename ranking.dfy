/**
 * The counting and ranking idioms shared by the leaderboards and the pin
 * statistics: a Python dict used as a counter (insertion-ordered, an
 * existing key keeps its place), `sorted(..., key=count, reverse=True)`,
 * which is stable, and truncation to the first n entries.
 */
module Ranking {

  predicate NoDup<K(==)>(s: seq<K>) {
    forall i, j :: 0 <= i < j < |s| ==> s[i] != s[j]
  }

  /** The keys of a list of (key, value) pairs, in order. */
  function Keys<K, V>(t: seq<(K, V)>): (ks: seq<K>)
    ensures |ks| == |t| && forall i :: 0 <= i < |t| ==> ks[i] == t[i].0
  {
    seq(|t|, i requires 0 <= i < |t| => t[i].0)
  }

  // ---- stable descending sort -------------------------------------------

  /** Non-increasing by count. */
  predicate Descending<T>(s: seq<(T, int)>) {
    forall i, j :: 0 <= i < j < |s| ==> s[i].1 >= s[j].1
  }

  /** The entries of `s` whose count is `c`, in their order in `s`. */
  function WithCount<T>(s: seq<(T, int)>, c: int): seq<(T, int)>
  {
    if s == [] then [] else (if s[0].1 == c then [s[0]] else []) + WithCount(s[1..], c)
  }

  lemma {:induction false} WithCountMember<T>(s: seq<(T, int)>, c: int, y: (T, int))
    requires y in WithCount(s, c)
    ensures y in s && y.1 == c
  {
    if s != [] && !(s[0].1 == c && y == s[0]) {
      WithCountMember(s[1..], c, y);
    }
  }

  /** Places `x` before the first entry whose count is not larger. */
  function Insert<T>(t: seq<(T, int)>, x: (T, int)): (r: seq<(T, int)>)
    ensures |r| == |t| + 1 && multiset(r) == multiset(t) + multiset{x}
  {
    if t == [] || x.1 >= t[0].1 then [x] + t
    else
      assert t == [t[0]] + t[1..];
      [t[0]] + Insert(t[1..], x)
  }

  lemma {:induction false} InsertDescending<T>(t: seq<(T, int)>, x: (T, int))
    requires Descending(t)
    ensures Descending(Insert(t, x))
    ensures Insert(t, x)[0] == x || (t != [] && Insert(t, x)[0] == t[0])
  {
    if t != [] && x.1 < t[0].1 {
      var rest := t[1..];
      var tail := Insert(rest, x);
      InsertDescending(rest, x);
      assert rest != [] ==> rest[0] == t[1];
      assert tail[0].1 <= t[0].1;
      var r := [t[0]] + tail;
      assert Insert(t, x) == r;
      forall i, j | 0 <= i < j < |r| ensures r[i].1 >= r[j].1 {
        assert r[j] == tail[j - 1];
        if i == 0 {
          assert tail[0].1 >= tail[j - 1].1;
        } else {
          assert r[i] == tail[i - 1];
        }
      }
    }
  }

  /** `sorted(s, key=lambda e: e[1], reverse=True)`. */
  function SortDesc<T>(s: seq<(T, int)>): (r: seq<(T, int)>)
    ensures |r| == |s| && multiset(r) == multiset(s)
    ensures Descending(r)
  {
    if s == [] then []
    else
      var t := SortDesc(s[1..]);
      InsertDescending(t, s[0]);
      assert s == [s[0]] + s[1..];
      Insert(t, s[0])
  }

  lemma {:induction false} WithCountInsert<T>(t: seq<(T, int)>, x: (T, int), c: int)
    ensures WithCount(Insert(t, x), c) == (if x.1 == c then [x] else []) + WithCount(t, c)
  {
    if t == [] || x.1 >= t[0].1 {
      assert ([x] + t)[1..] == t;
    } else {
      var r := [t[0]] + Insert(t[1..], x);
      assert r[1..] == Insert(t[1..], x);
      WithCountInsert(t[1..], x, c);
    }
  }

  /** The sort is stable: for every count, the entries with that count come
      out in the order they went in. */
  lemma {:induction false} SortDescIsStable<T>(s: seq<(T, int)>, c: int)
    ensures WithCount(SortDesc(s), c) == WithCount(s, c)
  {
    if s != [] {
      WithCountInsert(SortDesc(s[1..]), s[0], c);
      SortDescIsStable(s[1..], c);
    }
  }

  lemma {:induction false} HeadIsLargest<T>(q: seq<(T, int)>, y: (T, int))
    requires Descending(q) && y in q
    ensures q[0].1 >= y.1
  {
    var i :| 0 <= i < |q| && q[i] == y;
  }

  lemma WithCountOfHead<T>(q: seq<(T, int)>)
    requires q != []
    ensures WithCount(q, q[0].1) != []
  {
  }

  lemma SameCountsBothEmpty<T>(p: seq<(T, int)>, q: seq<(T, int)>)
    requires forall c :: WithCount(p, c) == WithCount(q, c)
    ensures p == [] <==> q == []
  {
    if q != [] {
      WithCountOfHead(q);
      assert WithCount(p, q[0].1) != [];
    }
    if p != [] {
      WithCountOfHead(p);
      assert WithCount(q, p[0].1) != [];
    }
  }

  /** Two descending lists that agree on the entries of every count are the
      same list. */
  lemma {:induction false} DescendingDeterminedByCounts<T>(p: seq<(T, int)>, q: seq<(T, int)>)
    requires Descending(p) && Descending(q)
    requires forall c :: WithCount(p, c) == WithCount(q, c)
    ensures p == q
    decreases |p|
  {
    SameCountsBothEmpty(p, q);
    if p != [] {
      var cp, cq := p[0].1, q[0].1;
      assert WithCount(p, cp)[0] == p[0];
      assert WithCount(q, cp) == WithCount(p, cp);
      WithCountMember(q, cp, WithCount(q, cp)[0]);
      HeadIsLargest(q, WithCount(q, cp)[0]);
      assert WithCount(q, cq)[0] == q[0];
      assert WithCount(p, cq) == WithCount(q, cq);
      WithCountMember(p, cq, WithCount(p, cq)[0]);
      HeadIsLargest(p, WithCount(p, cq)[0]);
      assert cp == cq;
      assert p[0] == WithCount(p, cp)[0] == WithCount(q, cp)[0] == q[0];
      forall c ensures WithCount(p[1..], c) == WithCount(q[1..], c) {
        assert WithCount(p, c) == WithCount(q, c);
        assert WithCount(p, c) == (if p[0].1 == c then [p[0]] else []) + WithCount(p[1..], c);
        assert WithCount(q, c) == (if q[0].1 == c then [q[0]] else []) + WithCount(q[1..], c);
        if p[0].1 == c {
          assert WithCount(p[1..], c) == WithCount(p, c)[1..];
          assert WithCount(q[1..], c) == WithCount(q, c)[1..];
        } else {
          assert WithCount(p, c) == [] + WithCount(p[1..], c) == WithCount(p[1..], c);
          assert WithCount(q, c) == [] + WithCount(q[1..], c) == WithCount(q[1..], c);
        }
      }
      DescendingDeterminedByCounts(p[1..], q[1..]);
    }
  }

  /** `SortDesc` is the one stable descending sort: any descending
      rearrangement that keeps equal counts in input order is it. */
  lemma StableSortIsUnique<T>(s: seq<(T, int)>, r: seq<(T, int)>)
    requires Descending(r)
    requires forall c :: WithCount(r, c) == WithCount(s, c)
    ensures r == SortDesc(s)
  {
    forall c ensures WithCount(r, c) == WithCount(SortDesc(s), c) {
      SortDescIsStable(s, c);
    }
    DescendingDeterminedByCounts(r, SortDesc(s));
  }

  /** `s[:n]`. */
  function Take<T>(s: seq<T>, n: nat): (r: seq<T>)
    ensures |r| <= n && |r| <= |s|
    ensures r == s[..|r|]
    ensures |s| <= n ==> r == s
  {
    if |s| <= n then s else s[..n]
  }

  // ---- counting --------------------------------------------------------

  /** How many times `k` occurs in `s`. */
  function Occurrences<K(==)>(s: seq<K>, k: K): nat
  {
    if s == [] then 0 else Occurrences(s[..|s| - 1], k) + (if s[|s| - 1] == k then 1 else 0)
  }

  /** The distinct elements of `s` in order of first occurrence. */
  function Distinct<K(==)>(s: seq<K>): seq<K>
  {
    if s == [] then []
    else
      var d := Distinct(s[..|s| - 1]);
      if s[|s| - 1] in d then d else d + [s[|s| - 1]]
  }

  /** `d[k] += 1` on an insertion-ordered counter: an existing key keeps its
      place and gains one, a new key is appended with count 1. */
  function Bump<K(==)>(t: seq<(K, int)>, k: K): seq<(K, int)>
  {
    if t == [] then [(k, 1)]
    else if t[0].0 == k then [(k, t[0].1 + 1)] + t[1..]
    else [t[0]] + Bump(t[1..], k)
  }

  /** The key set grows only by a new key, appended with count 1; with keys
      already distinct, the entry of `k` gains one and every other is kept. */
  lemma BumpEntries<K>(t: seq<(K, int)>, k: K)
    ensures k in Keys(t) ==> |Bump(t, k)| == |t|
    ensures k !in Keys(t) ==> |Bump(t, k)| == |t| + 1 && Bump(t, k)[|t|] == (k, 1)
    ensures Keys(Bump(t, k)) == if k in Keys(t) then Keys(t) else Keys(t) + [k]
    ensures NoDup(Keys(t)) ==>
              forall i :: 0 <= i < |t| ==> Bump(t, k)[i] == (t[i].0, t[i].1 + if t[i].0 == k then 1 else 0)
  {
    BumpKeys(t, k);
    if k !in Keys(t) {
      BumpNew(t, k);
    }
    if NoDup(Keys(t)) {
      BumpValues(t, k);
    }
  }

  lemma {:induction false} BumpKeys<K>(t: seq<(K, int)>, k: K)
    ensures Keys(Bump(t, k)) == if k in Keys(t) then Keys(t) else Keys(t) + [k]
  {
    if t != [] {
      var x, rest := t[0], t[1..];
      assert [x] + rest == t;
      KeysCons(x, rest);
      if x.0 == k {
        assert Bump(t, k) == [(k, x.1 + 1)] + rest;
        KeysCons((k, x.1 + 1), rest);
        assert k in Keys(t);
      } else {
        assert Bump(t, k) == [x] + Bump(rest, k);
        BumpKeys(rest, k);
        KeysCons(x, Bump(rest, k));
        if k in Keys(rest) {
          assert k in Keys(t);
        } else {
          assert k !in Keys(t);
          assert [x.0] + (Keys(rest) + [k]) == ([x.0] + Keys(rest)) + [k];
        }
      }
    }
  }

  lemma {:induction false} BumpNew<K>(t: seq<(K, int)>, k: K)
    requires k !in Keys(t)
    ensures Bump(t, k) == t + [(k, 1)]
  {
    if t != [] {
      assert Keys(t)[0] == t[0].0;
      assert Keys(t[1..]) == Keys(t)[1..];
      BumpNew(t[1..], k);
      assert [t[0]] + (t[1..] + [(k, 1)]) == t + [(k, 1)];
    }
  }

  lemma {:induction false} BumpValues<K>(t: seq<(K, int)>, k: K)
    requires NoDup(Keys(t))
    ensures |Bump(t, k)| >= |t|
    ensures forall i :: 0 <= i < |t| ==> Bump(t, k)[i] == (t[i].0, t[i].1 + if t[i].0 == k then 1 else 0)
  {
    if t != [] {
      var x, rest := t[0], t[1..];
      assert [x] + rest == t;
      KeysCons(x, rest);
      NoDupCons(x.0, Keys(rest));
      if x.0 == k {
        assert Bump(t, k) == [(k, x.1 + 1)] + rest;
        forall i | 1 <= i < |t| ensures t[i].0 != k {
          assert Keys(t)[0] != Keys(t)[i];
        }
      } else {
        assert Bump(t, k) == [x] + Bump(rest, k);
        BumpValues(rest, k);
        forall i | 1 <= i < |t|
          ensures Bump(t, k)[i] == (t[i].0, t[i].1 + if t[i].0 == k then 1 else 0)
        {
          assert Bump(t, k)[i] == Bump(rest, k)[i - 1] && t[i] == rest[i - 1];
        }
      }
    }
  }

  /** The counter that counting every element of `s`, in order, produces. */
  function Tally<K(==)>(s: seq<K>): seq<(K, int)>
  {
    if s == [] then [] else Bump(Tally(s[..|s| - 1]), s[|s| - 1])
  }

  lemma {:induction false} DistinctMembers<K>(s: seq<K>)
    ensures NoDup(Distinct(s))
    ensures forall k :: k in Distinct(s) <==> k in s
  {
    if s != [] {
      DistinctMembers(s[..|s| - 1]);
      assert s == s[..|s| - 1] + [s[|s| - 1]];
    }
  }

  lemma {:induction false} OccurrencesZero<K>(s: seq<K>, k: K)
    ensures Occurrences(s, k) == 0 <==> k !in s
  {
    if s != [] {
      OccurrencesZero(s[..|s| - 1], k);
      assert s == s[..|s| - 1] + [s[|s| - 1]];
    }
  }

  /** The counter holds each distinct element once, in order of first
      occurrence, with its number of occurrences. */
  lemma {:induction false} TallyCounts<K>(s: seq<K>)
    ensures Keys(Tally(s)) == Distinct(s)
    ensures forall i :: 0 <= i < |Tally(s)| ==> Tally(s)[i].1 == Occurrences(s, Tally(s)[i].0)
  {
    if s != [] {
      var init, x := s[..|s| - 1], s[|s| - 1];
      TallyCounts(init);
      DistinctMembers(init);
      var t := Tally(init);
      var r := Bump(t, x);
      assert r == Tally(s);
      BumpEntries(t, x);
      forall i | 0 <= i < |r| ensures r[i].1 == Occurrences(s, r[i].0) {
        if i == |t| {
          assert x !in init;
          OccurrencesZero(init, x);
        }
      }
    }
  }

  /** Corollary: every count is positive, and a key is present exactly when it
      occurs in the input. */
  lemma TallyKeys<K>(s: seq<K>)
    ensures NoDup(Keys(Tally(s)))
    ensures forall k :: k in Keys(Tally(s)) <==> k in s
    ensures forall i :: 0 <= i < |Tally(s)| ==> Tally(s)[i].1 >= 1
  {
    TallyCounts(s);
    DistinctMembers(s);
    forall i | 0 <= i < |Tally(s)| ensures Tally(s)[i].1 >= 1 {
      assert Keys(Tally(s))[i] == Tally(s)[i].0;
      assert Tally(s)[i].0 in Distinct(s);
      OccurrencesZero(s, Tally(s)[i].0);
    }
  }

  lemma {:induction false} TallySnoc<K>(s: seq<K>, x: K)
    ensures Tally(s + [x]) == Bump(Tally(s), x)
  {
    assert (s + [x])[..|s|] == s;
  }

  // ---- keys under sorting ------------------------------------------------

  lemma NoDupCons<K>(a: K, ks: seq<K>)
    ensures NoDup([a] + ks) <==> a !in ks && NoDup(ks)
  {
    var s := [a] + ks;
    assert forall i :: 0 <= i < |ks| ==> s[i + 1] == ks[i];
    if a !in ks && NoDup(ks) {
      forall i, j | 0 <= i < j < |s| ensures s[i] != s[j] {
        if i > 0 {
          assert s[i] == ks[i - 1] && s[j] == ks[j - 1];
        }
      }
    }
    if NoDup(s) {
      forall i, j | 0 <= i < j < |ks| ensures ks[i] != ks[j] {
        assert s[i + 1] != s[j + 1];
      }
      forall i | 0 <= i < |ks| ensures ks[i] != a {
        assert s[0] != s[i + 1];
      }
    }
  }

  lemma {:induction false} InsertKeysMembers<T>(t: seq<(T, int)>, x: (T, int))
    ensures Keys(Insert(t, x)) == [x.0] + Keys(t) || (t != [] && Keys(Insert(t, x)) == [t[0].0] + Keys(Insert(t[1..], x)))
    ensures forall k :: k in Keys(Insert(t, x)) <==> k in Keys(t) || k == x.0
  {
    if t == [] || x.1 >= t[0].1 {
      KeysCons(x, t);
    } else {
      var y, rest := t[0], t[1..];
      assert [y] + rest == t;
      KeysCons(y, rest);
      assert Insert(t, x) == [y] + Insert(rest, x);
      KeysCons(y, Insert(rest, x));
      InsertKeysMembers(rest, x);
    }
  }

  lemma {:induction false} InsertKeys<T>(t: seq<(T, int)>, x: (T, int))
    ensures forall k :: k in Keys(Insert(t, x)) <==> k in Keys(t) || k == x.0
    ensures NoDup(Keys(t)) && x.0 !in Keys(t) ==> NoDup(Keys(Insert(t, x)))
  {
    InsertKeysMembers(t, x);
    if NoDup(Keys(t)) && x.0 !in Keys(t) {
      if t == [] || x.1 >= t[0].1 {
        KeysCons(x, t);
        NoDupCons(x.0, Keys(t));
      } else {
        var y, rest := t[0], t[1..];
        assert [y] + rest == t;
        KeysCons(y, rest);
        NoDupCons(y.0, Keys(rest));
        InsertKeys(rest, x);
        assert Insert(t, x) == [y] + Insert(rest, x);
        KeysCons(y, Insert(rest, x));
        NoDupCons(y.0, Keys(Insert(rest, x)));
      }
    }
  }

  /** Sorting neither loses nor duplicates a key. */
  lemma {:induction false} SortDescKeys<T>(s: seq<(T, int)>)
    ensures forall k :: k in Keys(SortDesc(s)) <==> k in Keys(s)
    ensures NoDup(Keys(s)) ==> NoDup(Keys(SortDesc(s)))
  {
    if s != [] {
      SortDescKeys(s[1..]);
      InsertKeys(SortDesc(s[1..]), s[0]);
      assert Keys(s) == [s[0].0] + Keys(s[1..]);
    }
  }

  // ---- insertion-ordered dict assignment ---------------------------------

  /** `d[k] = v` on a Python dict: an existing key keeps its place and takes
      the new value, a new key goes at the end. */
  function Put<K(==), V>(d: seq<(K, V)>, k: K, v: V): seq<(K, V)>
  {
    if d == [] then [(k, v)]
    else if d[0].0 == k then [(k, v)] + d[1..]
    else [d[0]] + Put(d[1..], k, v)
  }

  lemma {:induction false} PutNewKey<K, V>(d: seq<(K, V)>, k: K, v: V)
    requires k !in Keys(d)
    ensures Put(d, k, v) == d + [(k, v)]
  {
    if d != [] {
      assert Keys(d)[0] == d[0].0;
      assert Keys(d[1..]) == Keys(d)[1..];
      PutNewKey(d[1..], k, v);
    }
  }

  /** Assigning an existing key changes only that key's value, in place. */
  lemma {:induction false} PutExistingKey<K, V>(d: seq<(K, V)>, k: K, v: V, i: nat)
    requires i < |d| && d[i].0 == k && forall j :: 0 <= j < i ==> d[j].0 != k
    ensures Put(d, k, v) == d[i := (k, v)]
  {
    if i > 0 {
      PutExistingKey(d[1..], k, v, i - 1);
    }
  }

  /** Assignment adds a key only when it is new, and at the end. */
  lemma {:induction false} PutKeys<K, V>(d: seq<(K, V)>, k: K, v: V)
    ensures Keys(Put(d, k, v)) == if k in Keys(d) then Keys(d) else Keys(d) + [k]
  {
    if d != [] {
      var x, rest := d[0], d[1..];
      assert [x] + rest == d;
      KeysCons(x, rest);
      if x.0 != k {
        assert Put(d, k, v) == [x] + Put(rest, k, v);
        PutKeys(rest, k, v);
        KeysCons(x, Put(rest, k, v));
        if k in Keys(rest) {
          assert k in Keys(d);
        } else {
          assert k !in Keys(d);
          assert [x.0] + (Keys(rest) + [k]) == ([x.0] + Keys(rest)) + [k];
        }
      } else {
        assert Put(d, k, v) == [(k, v)] + rest;
        KeysCons((k, v), rest);
        assert k in Keys(d);
      }
    }
  }

  /** Assignment keeps keys distinct, and its key set is the old one plus `k`. */
  lemma PutKeySet<K, V>(d: seq<(K, V)>, k: K, v: V)
    ensures k in Keys(Put(d, k, v))
    ensures forall x :: x in Keys(Put(d, k, v)) <==> x in Keys(d) || x == k
    ensures NoDup(Keys(d)) ==> NoDup(Keys(Put(d, k, v)))
  {
    PutKeys(d, k, v);
    var ks := Keys(d);
    if k !in ks {
      assert (ks + [k])[|ks|] == k;
      if NoDup(ks) {
        forall i, j | 0 <= i < j < |ks + [k]| ensures (ks + [k])[i] != (ks + [k])[j] {
          if j == |ks| {
            assert (ks + [k])[i] == ks[i];
          }
        }
      }
    }
  }

  /** The keys of an entry followed by a dictionary. */
  lemma KeysCons<K, V>(x: (K, V), d: seq<(K, V)>)
    ensures Keys([x] + d) == [x.0] + Keys(d)
  {
  }

  /** Assignment finds the value it stored: the first entry under `k` holds `v`. */
  lemma {:induction false} PutFinds<K, V>(d: seq<(K, V)>, k: K, v: V)
    ensures exists i :: 0 <= i < |Put(d, k, v)| && Put(d, k, v)[i] == (k, v) &&
                        forall j :: 0 <= j < i ==> Put(d, k, v)[j].0 != k
  {
    if d != [] && d[0].0 != k {
      PutFinds(d[1..], k, v);
      var i :| 0 <= i < |Put(d[1..], k, v)| && Put(d[1..], k, v)[i] == (k, v) &&
               forall j :: 0 <= j < i ==> Put(d[1..], k, v)[j].0 != k;
      assert Put(d, k, v)[i + 1] == (k, v);
    } else {
      assert Put(d, k, v)[0] == (k, v);
    }
  }

  /** `d.setdefault(k, v)`: a new key is appended with `v`, an existing one is
      left alone. */
  function SetDefault<K(==), V>(d: seq<(K, V)>, k: K, v: V): seq<(K, V)>
  {
    if k in Keys(d) then d else d + [(k, v)]
  }

  /** `d.get(k, dflt)`: the value of the first entry under `k`. */
  function Get<K(==), V>(d: seq<(K, V)>, k: K, dflt: V): V {
    if d == [] then dflt else if d[0].0 == k then d[0].1 else Get(d[1..], k, dflt)
  }

  /** After `d[k] = v`, `k` reads `v` and every other key reads what it did. */
  lemma {:induction false} GetPut<K, V>(d: seq<(K, V)>, k: K, v: V, j: K, dflt: V)
    ensures Get(Put(d, k, v), j, dflt) == if j == k then v else Get(d, j, dflt)
  {
    if d != [] && d[0].0 != k {
      GetPut(d[1..], k, v, j, dflt);
    }
  }

  /** A second assignment to the same key overrides the first. */
  lemma {:induction false} PutPut<K, V>(d: seq<(K, V)>, k: K, a: V, b: V)
    ensures Put(Put(d, k, a), k, b) == Put(d, k, b)
  {
    if d != [] && d[0].0 != k {
      PutPut(d[1..], k, a, b);
    }
  }

  /** Storing the value a key already has changes nothing. */
  lemma {:induction false} PutSame<K, V>(d: seq<(K, V)>, k: K, dflt: V)
    requires k in Keys(d)
    ensures Put(d, k, Get(d, k, dflt)) == d
  {
    assert Keys(d)[0] == d[0].0;
    if d[0].0 != k {
      assert Keys(d[1..]) == Keys(d)[1..];
      PutSame(d[1..], k, dflt);
    }
  }

  lemma {:induction false} OccurrencesAppend<K>(a: seq<K>, b: seq<K>, k: K)
    ensures Occurrences(a + b, k) == Occurrences(a, k) + Occurrences(b, k)
  {
    if b != [] {
      assert (a + b)[..|a + b| - 1] == a + b[..|b| - 1];
      OccurrencesAppend(a, b[..|b| - 1], k);
    } else {
      assert a + b == a;
    }
  }

  // ---- what a ranked counter says ----------------------------------------

  /** A counter sorted by count: every key once, every element of the input
      as a key, each with its number of occurrences, most frequent first. */
  lemma RankedTally<K>(s: seq<K>)
    ensures var r := SortDesc(Tally(s));
      && |r| == |Distinct(s)|
      && Descending(r) && NoDup(Keys(r))
      && (forall k :: k in Keys(r) <==> k in s)
      && (forall i :: 0 <= i < |r| ==> r[i].1 == Occurrences(s, r[i].0))
  {
    var t := Tally(s);
    var r := SortDesc(t);
    TallyCounts(s);
    TallyKeys(s);
    SortDescKeys(t);
    forall i | 0 <= i < |r| ensures r[i].1 == Occurrences(s, r[i].0) {
      assert r[i] in multiset(r);
      assert r[i] in t;
    }
  }

  /** A prefix of a ranked list is ranked, and whatever key it leaves out
      comes with a count no larger than its last entry's. */
  lemma PrefixOfRanked<K>(full: seq<(K, int)>, n: nat)
    requires n > 0 && Descending(full) && NoDup(Keys(full))
    ensures var r := Take(full, n);
      && Descending(r) && NoDup(Keys(r))
      && (forall p :: 0 <= p < |full| && full[p].0 !in Keys(r) ==> |r| == n && full[p].1 <= r[n - 1].1)
  {
    var r := Take(full, n);
    assert Keys(r) == Keys(full)[..|r|];
    assert forall q :: 0 <= q < |r| ==> full[q].0 in Keys(r);
    forall p | 0 <= p < |full| && full[p].0 !in Keys(r) ensures |r| == n && full[p].1 <= r[n - 1].1 {
      assert r[n - 1] == full[n - 1];
    }
  }

  /** The first `n` entries of a ranked counter: each is an element of the
      input with its number of occurrences, and nothing left out occurs more
      often than the last entry kept. */
  lemma TopOfTally<K>(s: seq<K>, n: nat)
    requires n > 0
    ensures var r := Take(SortDesc(Tally(s)), n);
      && |r| == (if |Distinct(s)| <= n then |Distinct(s)| else n)
      && Descending(r) && NoDup(Keys(r))
      && (forall i :: 0 <= i < |r| ==> r[i].0 in s && r[i].1 == Occurrences(s, r[i].0))
      && (forall k :: k in s && k !in Keys(r) ==> |r| == n && Occurrences(s, k) <= r[n - 1].1)
  {
    var full := SortDesc(Tally(s));
    var r := Take(full, n);
    RankedTally(s);
    PrefixOfRanked(full, n);
    forall i | 0 <= i < |r| ensures r[i].0 in s && r[i].1 == Occurrences(s, r[i].0) {
      assert r[i] == full[i];
      assert Keys(full)[i] == full[i].0;
    }
    forall k | k in s && k !in Keys(r) ensures |r| == n && Occurrences(s, k) <= r[n - 1].1 {
      var p :| 0 <= p < |full| && Keys(full)[p] == k;
      assert full[p].0 !in Keys(r);
    }
  }

  /** Sorting keeps exactly the entries it was given. */
  lemma SortDescMembers<T>(s: seq<(T, int)>, x: (T, int))
    ensures x in SortDesc(s) <==> x in s
  {
    assert x in SortDesc(s) <==> x in multiset(SortDesc(s));
    assert x in s <==> x in multiset(s);
  }

  /** The first `n` entries of a list sorted by count: entries of the list,
      ranked, and holding every entry that beats the last one kept. */
  lemma TopOfSorted<T>(s: seq<(T, int)>, n: nat)
    requires n > 0
    ensures var r := Take(SortDesc(s), n);
      && |r| == (if |s| <= n then |s| else n)
      && Descending(r)
      && (forall i :: 0 <= i < |r| ==> r[i] in s)
      && (forall p :: 0 <= p < |s| && (|r| < n || s[p].1 > r[n - 1].1) ==> s[p] in r)
  {
    var full := SortDesc(s);
    var r := Take(full, n);
    assert forall i :: 0 <= i < |r| ==> r[i] == full[i];
    forall i | 0 <= i < |r| ensures r[i] in s {
      SortDescMembers(s, full[i]);
    }
    forall p | 0 <= p < |s| && (|r| < n || s[p].1 > r[n - 1].1) ensures s[p] in r {
      SortDescMembers(s, s[p]);
      var q :| 0 <= q < |full| && full[q] == s[p];
      assert r[q] == s[p];
    }
  }
}
