/** One partition of the KV store and the batched range scans over it. */
module Scan {
  import opened Lex

  const NUM_SHARDS: nat := 256
  const SCAN_BATCH_SIZE: nat := 1000

  type Value = seq<Byte>

  datatype Entry = Entry(key: Key, value: Value)

  /** A partition: its entries in ascending key order, each key once. */
  ghost predicate Ascending(s: seq<Entry>) {
    forall i, j :: 0 <= i < j < |s| ==> Lt(s[i].key, s[j].key)
  }

  /** Where the entries at or above `start` begin. */
  function Cut(s: seq<Entry>, start: Key): (n: nat)
    ensures n <= |s|
    ensures forall i :: 0 <= i < n ==> Lt(s[i].key, start)
    ensures n < |s| ==> !Lt(s[n].key, start)
  {
    if s == [] || !Lt(s[0].key, start) then 0 else
      assert forall i :: 1 <= i < |s| ==> s[i] == s[1..][i - 1];
      1 + Cut(s[1..], start)
  }

  /** The entries at or above `start`. */
  function From(s: seq<Entry>, start: Key): seq<Entry> {
    s[Cut(s, start)..]
  }

  /** The leading entries below `end`. */
  function Below(s: seq<Entry>, end: Option<Key>): seq<Entry> {
    if s == [] || !InBound(s[0].key, end) then [] else [s[0]] + Below(s[1..], end)
  }

  function Take<T>(s: seq<T>, n: nat): seq<T> {
    if n <= |s| then s[..n] else s
  }

  function Drop<T>(s: seq<T>, n: nat): seq<T> {
    if n <= |s| then s[n..] else []
  }

  /** What a scan is for: the keys under a prefix and, for a search, those whose
      lower-cased form contains the (already lower-cased) needle. */
  datatype Query = Query(prefix: Key, needle: Option<Key>, lower: Key -> Key) {
    predicate Wants(k: Key) {
      prefix <= k && (needle.Some? ==> Contains(lower(k), needle.value))
    }
  }

  predicate Contains(text: Key, needle: Key) {
    needle <= text || (text != [] && Contains(text[1..], needle))
  }

  /** The needle stands in the text at this position. */
  predicate OccursAt(text: Key, needle: Key, at: nat) {
    at + |needle| <= |text| && text[at..at + |needle|] == needle
  }

  lemma {:induction false} ContainsIff(text: Key, needle: Key)
    ensures Contains(text, needle) <==> exists at :: OccursAt(text, needle, at)
  {
    assert needle <= text <==> OccursAt(text, needle, 0);
    if text != [] {
      ContainsIff(text[1..], needle);
      forall at: nat
        ensures OccursAt(text[1..], needle, at) <==> OccursAt(text, needle, at + 1)
      {
        if at + |needle| <= |text[1..]| {
          assert text[1..][at..at + |needle|] == text[at + 1..at + 1 + |needle|];
        }
      }
      if at: nat :| at > 0 && OccursAt(text, needle, at) {
        assert OccursAt(text[1..], needle, at - 1);
      }
    }
  }

  /** The entries the query wants, in order. */
  function Filter(q: Query, s: seq<Entry>): (r: seq<Entry>)
  {
    if s == [] then [] else (if q.Wants(s[0].key) then [s[0]] else []) + Filter(q, s[1..])
  }

  lemma FromMembers(s: seq<Entry>, start: Key, e: Entry)
    requires Ascending(s)
    ensures e in From(s, start) <==> e in s && Le(start, e.key)
  {
    OrderLaws();
    var n := Cut(s, start);
    if e in s {
      var i :| 0 <= i < |s| && s[i] == e;
      if i >= n {
        assert From(s, start)[i - n] == e;
      }
    }
  }

  lemma {:induction false} FilterAppend(q: Query, s: seq<Entry>, t: seq<Entry>)
    ensures Filter(q, s + t) == Filter(q, s) + Filter(q, t)
  {
    if s == [] {
      assert s + t == t;
    } else {
      var head := if q.Wants(s[0].key) then [s[0]] else [];
      FilterAppend(q, s[1..], t);
      assert (s + t)[1..] == s[1..] + t;
      assert head + (Filter(q, s[1..]) + Filter(q, t)) == (head + Filter(q, s[1..])) + Filter(q, t);
    }
  }

  lemma FilterSplit(q: Query, s: seq<Entry>, n: nat)
    requires n <= |s|
    ensures Filter(q, s) == Filter(q, s[..n]) + Filter(q, s[n..])
  {
    FilterAppend(q, s[..n], s[n..]);
    assert s == s[..n] + s[n..];
  }

  lemma {:induction false} FilterMembers(q: Query, s: seq<Entry>)
    ensures forall e :: e in Filter(q, s) <==> e in s && q.Wants(e.key)
  {
    if s != [] {
      FilterMembers(q, s[1..]);
      assert s == [s[0]] + s[1..];
    }
  }

  lemma {:induction false} FilterAscending(q: Query, s: seq<Entry>)
    requires Ascending(s)
    ensures Ascending(Filter(q, s))
  {
    if s != [] {
      FilterAscending(q, s[1..]);
      FilterMembers(q, s[1..]);
      var r := Filter(q, s[1..]);
      forall i | 0 <= i < |r|
        ensures Lt(s[0].key, r[i].key)
      {
        assert r[i] in s[1..];
        var j :| 0 <= j < |s[1..]| && s[1..][j] == r[i];
        assert s[j + 1] == r[i];
      }
    }
  }

  /** No key here starts with the prefix. */
  ghost predicate Outside(prefix: Key, s: seq<Entry>) {
    forall e :: e in s ==> !(prefix <= e.key)
  }

  lemma {:induction false} FilterOutside(q: Query, s: seq<Entry>)
    requires Outside(q.prefix, s)
    ensures Filter(q, s) == []
  {
    if s != [] {
      assert s[0] in s;
      assert Outside(q.prefix, s[1..]);
      FilterOutside(q, s[1..]);
    }
  }

  /** Ascending sequences with the same entries are the same sequence. */
  lemma {:induction false} AscendingUnique(s: seq<Entry>, t: seq<Entry>)
    requires Ascending(s) && Ascending(t)
    requires forall e :: e in s <==> e in t
    ensures s == t
  {
    OrderLaws();
    if s == [] {
      assert forall i :: 0 <= i < |t| ==> t[i] in t;
    } else {
      assert s[0] in t;
      assert t[0] in s;
      var i :| 0 <= i < |t| && t[i] == s[0];
      var j :| 0 <= j < |s| && s[j] == t[0];
      assert s[0] == t[0];
      forall e
        ensures e in s[1..] <==> e in t[1..]
      {
        AscendingTail(s, e);
        AscendingTail(t, e);
      }
      AscendingUnique(s[1..], t[1..]);
      assert s == [s[0]] + s[1..] && t == [t[0]] + t[1..];
    }
  }

  lemma AscendingTail(s: seq<Entry>, e: Entry)
    requires Ascending(s) && s != []
    ensures e in s[1..] <==> e in s && e != s[0]
  {
    LtIrreflexive(s[0].key);
    assert s == [s[0]] + s[1..];
    if e in s[1..] {
      var i :| 0 <= i < |s[1..]| && s[1..][i] == e;
      assert s[i + 1] == e;
    }
  }

  // --- scan_range ---

  /** The contract every backend keeps. The two backends differ only in whether a batch
      that is exactly full may already report `done`, so that choice is left open. */
  method ScanRange(part: seq<Entry>, start: Key, end: Option<Key>, limit: nat)
    returns (items: seq<Entry>, done: bool)
    requires limit >= 1
    ensures items == Take(Below(From(part, start), end), limit)
    ensures done ==> items == Below(From(part, start), end)
    ensures !done ==> items != []
  {
    var range := Below(From(part, start), end);
    var sawEnd: bool := *;
    items := Take(range, limit);
    done := |range| < limit || (|range| == limit && sawEnd);
  }

  /** `prefix_end` on strings: no bound when the bumped bytes are not valid UTF-8. */
  method StringPrefixEnd(prefix: Key, utf8: Key -> bool) returns (end: Option<Key>)
    ensures end == None || end == PrefixEnd(prefix)
    ensures end == None ==> PrefixEnd(prefix) == None || !utf8(PrefixEnd(prefix).value)
  {
    end := ComputePrefixEnd(prefix);
    if end.Some? && !utf8(end.value) {
      end := None;
    }
  }

  /** The NUL successor of a key cuts just past that key. */
  lemma CutPastKey(s: seq<Entry>, m: nat)
    requires Ascending(s) && 1 <= m <= |s|
    ensures Cut(s, s[m - 1].key + [0]) == m
  {
    hide Lt;
    var last := s[m - 1].key;
    NulIsSuccessor(last, last + [0]);
    forall i | 0 <= i < m
      ensures Lt(s[i].key, last + [0])
    {
      if i < m - 1 {
        LtTrans(s[i].key, last, last + [0]);
      }
    }
    if m < |s| {
      NulIsSuccessor(last, s[m].key);
      if Lt(s[m].key, last + [0]) {
        LeThenLt(last + [0], s[m].key, last + [0]);
        LtIrreflexive(last + [0]);
      }
    }
    CutIs(s, last + [0], m);
  }

  /** After a batch, the NUL successor of its last key restarts the scan exactly there. */
  lemma ResumeAfterBatch(part: seq<Entry>, start: Key, items: seq<Entry>)
    requires Ascending(part) && items <= From(part, start) && items != []
    ensures From(part, start) == items + From(part, items[|items| - 1].key + [0])
    ensures Lt(start, items[|items| - 1].key + [0])
  {
    hide Lt, Ascending;
    var n := Cut(part, start);
    var m := n + |items|;
    var last := items[|items| - 1];
    assert last == part[m - 1];
    CutPastKey(part, m);
    assert part[n..] == items + part[m..];
    FromMembers(part, start, last);
    NulIsSuccessor(last.key, last.key + [0]);
    LeThenLt(start, last.key, last.key + [0]);
  }

  /** The cut is the only place with everything below `start` before it and nothing after. */
  lemma CutIs(s: seq<Entry>, start: Key, n: nat)
    requires n <= |s|
    requires forall i :: 0 <= i < n ==> Lt(s[i].key, start)
    requires n < |s| ==> !Lt(s[n].key, start)
    ensures Cut(s, start) == n
  {
  }

  /** Whatever lies beyond a finished scan, or beyond the first key outside the prefix,
      does not start with the prefix. */
  lemma NothingBeyond(prefix: Key, end: Option<Key>, rest: seq<Entry>, seen: seq<Entry>)
    requires Ascending(rest) && seen <= rest
    requires end == None || end == PrefixEnd(prefix)
    requires seen == Below(rest, end)
    ensures Outside(prefix, rest[|seen|..])
  {
    BelowCut(rest, end);
    if |seen| < |rest| {
      var first := rest[|seen|].key;
      forall e | e in rest[|seen|..]
        ensures !(prefix <= e.key)
      {
        PrefixRange(prefix, e.key);
        var i :| |seen| <= i < |rest| && rest[i] == e;
        if i > |seen| && Lt(e.key, end.value) {
          LtTrans(first, e.key, end.value);
        }
      }
    }
  }

  lemma {:induction false} BelowPrefix(s: seq<Entry>, end: Option<Key>)
    ensures Below(s, end) <= s
  {
    if s != [] && InBound(s[0].key, end) {
      BelowPrefix(s[1..], end);
    }
  }

  lemma {:induction false} BelowCut(s: seq<Entry>, end: Option<Key>)
    requires Below(s, end) <= s
    ensures |Below(s, end)| < |s| ==> !InBound(s[|Below(s, end)|].key, end)
  {
    if s != [] && InBound(s[0].key, end) {
      BelowPrefix(s[1..], end);
      BelowCut(s[1..], end);
    }
  }

  lemma PastPrefix(prefix: Key, rest: seq<Entry>, i: nat)
    requires Ascending(rest) && i < |rest|
    requires Le(prefix, rest[i].key) && !(prefix <= rest[i].key)
    ensures Outside(prefix, rest[i..])
  {
    forall e | e in rest[i..]
      ensures !(prefix <= e.key)
    {
      var j :| i <= j < |rest| && rest[j] == e;
      if prefix <= e.key && j > i {
        PrefixConvex(prefix, rest[i].key, e.key);
      }
    }
  }

  lemma LeThenLt(a: Key, b: Key, c: Key)
    requires Le(a, b) && Lt(b, c)
    ensures Lt(a, c)
  {
    if a != b {
      LtTrans(a, b, c);
    }
  }

  /** Starting the scan at or below the prefix skips nothing the query wants. */
  lemma StartAtPrefix(part: seq<Entry>, q: Query)
    ensures Filter(q, part) == Filter(q, From(part, q.prefix))
  {
    hide Filter, Lt, PrefixEnd;
    var n := Cut(part, q.prefix);
    forall e | e in part[..n]
      ensures !(q.prefix <= e.key)
    {
      BelowIsOutside(q.prefix, e.key);
    }
    FilterOutside(q, part[..n]);
    FilterSplit(q, part, n);
  }

  lemma BelowIsOutside(p: Key, k: Key)
    requires Lt(k, p)
    ensures !(p <= k)
  {
    PrefixRange(p, k);
    if Lt(p, k) {
      LtTrans(k, p, k);
    }
    LtIrreflexive(k);
  }

  /** Keeps the wanted entries of one batch, stopping at the first key outside the
      prefix; `n` says how far it got. */
  method KeepWanted(q: Query, items: seq<Entry>) returns (kept: seq<Entry>, pastPrefix: bool, ghost n: nat)
    ensures n <= |items| && kept == Filter(q, items[..n])
    ensures if pastPrefix then n < |items| && !(q.prefix <= items[n].key) else n == |items|
  {
    kept, pastPrefix := [], false;
    var i := 0;
    while i < |items|
      invariant 0 <= i <= |items| && kept == Filter(q, items[..i])
    {
      if q.prefix != [] && !(q.prefix <= items[i].key) {
        return kept, true, i;
      }
      FilterAppend(q, items[..i], [items[i]]);
      assert items[..i + 1] == items[..i] + [items[i]];
      if q.needle.Some? && !Contains(q.lower(items[i].key), q.needle.value) {
        i := i + 1;
        continue;
      }
      kept := kept + [items[i]];
      i := i + 1;
    }
    n := i;
  }

  /** What one batch contributes: the kept entries are exactly the wanted ones so far,
      and if the scan is over, nothing wanted lies beyond. */
  lemma BatchStep(part: seq<Entry>, start: Key, end: Option<Key>, q: Query,
                  items: seq<Entry>, done: bool, kept: seq<Entry>, pastPrefix: bool, n: nat)
    requires Ascending(part) && Le(q.prefix, start)
    requires end == None || end == PrefixEnd(q.prefix)
    requires items <= From(part, start)
    requires done ==> items == Below(From(part, start), end)
    requires !done ==> items != []
    requires n <= |items| && kept == Filter(q, items[..n])
    requires if pastPrefix then n < |items| && !(q.prefix <= items[n].key) else n == |items|
    ensures done || pastPrefix ==> Filter(q, From(part, start)) == kept
    ensures !done && !pastPrefix ==>
              Filter(q, From(part, start)) == kept + Filter(q, From(part, items[|items| - 1].key + [0]))
    ensures items != [] ==>
              var next := items[|items| - 1].key + [0];
              Le(q.prefix, next) && |From(part, next)| < |From(part, start)|
  {
    hide Filter, Lt, PrefixEnd, Below;
    var rest := From(part, start);
    FilterSplit(q, rest, n);
    assert rest[..n] == items[..n];
    if pastPrefix {
      assert rest[n] in rest && rest[n] == items[n];
      FromMembers(part, start, rest[n]);
      if start != rest[n].key && q.prefix != start {
        LeThenLt(q.prefix, start, rest[n].key);
      }
      PastPrefix(q.prefix, rest, n);
      FilterOutside(q, rest[n..]);
    } else if done {
      NothingBeyond(q.prefix, end, rest, items);
      FilterOutside(q, rest[n..]);
    }
    if items != [] {
      ResumeAfterBatch(part, start, items);
      LeThenLt(q.prefix, start, items[|items| - 1].key + [0]);
    }
  }

  lemma ScannedIsPrefix(rest: seq<Entry>, end: Option<Key>, limit: nat)
    ensures Take(Below(rest, end), limit) <= rest
  {
    BelowPrefix(rest, end);
  }

  /** The batched scan loop: it visits exactly the entries under the prefix, in key
      order, for every batch size and every choice the backend makes about `done`. */
  method ForEachInPartition(part: seq<Entry>, q: Query, batchSize: nat, utf8: Key -> bool)
    returns (visited: seq<Entry>)
    requires Ascending(part) && batchSize >= 1 && q.needle.None?
    ensures visited == Filter(q, part)
  {
    hide Filter, From, Below, Lt, Ascending, PrefixEnd, Take;
    var end := StringPrefixEnd(q.prefix, utf8);
    var start := q.prefix;
    visited := [];
    StartAtPrefix(part, q);
    while true
      invariant Le(q.prefix, start)
      invariant Filter(q, part) == visited + Filter(q, From(part, start))
      decreases |From(part, start)|
    {
      var items, done := ScanRange(part, start, end, batchSize);
      var kept, pastPrefix, n := KeepWanted(q, items);
      ScannedIsPrefix(From(part, start), end, batchSize);
      BatchStep(part, start, end, q, items, done, kept, pastPrefix, n);
      visited := visited + kept;
      if done || pastPrefix {
        return;
      }
      start := items[|items| - 1].key + [0];
    }
  }
}
