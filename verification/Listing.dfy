/** The sharded listing engine: lazy per-shard streams, a heap merge over them, and the
    two listing operations. The specification is one ascending list, filtered, cut at
    the cursor, dropped by the offset and cut at the limit. */
module Listing {
  import opened Lex
  import opened Scan

  /** The part of an ascending list above the cursor. */
  function After(s: seq<Entry>, cursor: Option<Key>): seq<Entry> {
    if cursor.None? then s else From(s, cursor.value + [0])
  }

  function PageOf(s: seq<Entry>, cursor: Option<Key>, skip: nat, n: nat): seq<Entry> {
    Take(Drop(After(s, cursor), skip), n)
  }

  // --- One shard ---

  class ShardStream {
    const part: seq<Entry>
    const query: Query
    const end: Option<Key>
    const batchSize: nat
    var buffer: seq<Entry>
    var bufIdx: nat
    var nextStart: Key
    var exhausted: bool

    ghost predicate Valid()
      reads this
    {
      && Ascending(part) && batchSize >= 1
      && (end == None || end == PrefixEnd(query.prefix))
      && Le(query.prefix, nextStart)
      && bufIdx <= |buffer|
    }

    /** Every wanted entry this stream has yet to yield, buffered or not. */
    ghost function Remaining(): seq<Entry>
      reads this
      requires bufIdx <= |buffer|
    {
      buffer[bufIdx..] + if exhausted then [] else Filter(query, From(part, nextStart))
    }

    /** After a refill: something to peek at, or nothing left at all. */
    ghost predicate Ready()
      reads this
      requires bufIdx <= |buffer|
    {
      bufIdx < |buffer| || Remaining() == []
    }

    constructor (part: seq<Entry>, query: Query, end: Option<Key>, scanStart: Key, batchSize: nat)
      requires Ascending(part) && batchSize >= 1 && Le(query.prefix, scanStart)
      requires end == None || end == PrefixEnd(query.prefix)
      ensures Valid() && Remaining() == Filter(query, From(part, scanStart))
    {
      hide Filter, From, Ascending, PrefixEnd;
      this.part, this.query, this.end, this.batchSize := part, query, end, batchSize;
      buffer, bufIdx, nextStart, exhausted := [], 0, scanStart, false;
      new;
      assert Remaining() == Filter(query, From(part, scanStart));
    }

    method EnsureBuffered()
      requires Valid()
      modifies this
      ensures Valid() && Ready() && Remaining() == old(Remaining())
    {
      while bufIdx >= |buffer| && !exhausted
        invariant Valid() && Remaining() == old(Remaining())
        decreases |From(part, nextStart)|, !exhausted
      {
        Refill();
      }
    }

    /** One batch: the loop body of `EnsureBuffered`. */
    method Refill()
      requires Valid() && bufIdx >= |buffer| && !exhausted
      modifies this
      ensures Valid() && Remaining() == old(Remaining())
      ensures |From(part, nextStart)| < old(|From(part, nextStart)|) || (nextStart == old(nextStart) && exhausted)
    {
      ghost var start := nextStart;
      var items, done := ScanRange(part, nextStart, end, batchSize);
      var kept, pastPrefix, n := KeepWanted(query, items);
      BelowPrefix(From(part, start), end);
      BatchStep(part, start, end, query, items, done, kept, pastPrefix, n);
      if items != [] {
        nextStart := items[|items| - 1].key + [0];
      }
      buffer, bufIdx := kept, 0;
      exhausted := done || pastPrefix;
    }

    function Peek(): Option<Entry>
      reads this
    {
      if bufIdx < |buffer| then Some(buffer[bufIdx]) else None
    }

    method Advance()
      requires Valid() && Ready() && Remaining() != []
      modifies this`bufIdx
      ensures Valid() && Remaining() == old(Remaining())[1..]
    {
      bufIdx := bufIdx + 1;
    }
  }

  // --- The merge ---

  /** `rest` is the one ascending list of everything the streams still hold, and no key
      is held by two streams. */
  ghost predicate Covers(rest: seq<Entry>, rem: seq<seq<Entry>>) {
    && Ascending(rest)
    && (forall i :: 0 <= i < |rem| ==> Ascending(rem[i]))
    && (forall i, e :: 0 <= i < |rem| && e in rem[i] ==> e in rest)
    && (forall e :: e in rest ==> exists i :: 0 <= i < |rem| && e in rem[i])
    && (forall i, j, e :: 0 <= i < j < |rem| && e in rem[i] ==> e !in rem[j])
  }

  datatype HeapEntry = HeapEntry(sk: Key, idx: nat)

  predicate HeapLe(a: HeapEntry, b: HeapEntry) {
    Lt(a.sk, b.sk) || (a.sk == b.sk && a.idx <= b.idx)
  }

  /** The heap holds the peeked key of every stream that still has one. */
  ghost predicate HeapOf(heap: set<HeapEntry>, rem: seq<seq<Entry>>) {
    && (forall h :: h in heap ==> h.idx < |rem| && rem[h.idx] != [] && rem[h.idx][0].key == h.sk)
    && (forall i :: 0 <= i < |rem| && rem[i] != [] ==> HeapEntry(rem[i][0].key, i) in heap)
  }

  lemma {:induction false} HasMinimum(heap: set<HeapEntry>)
    requires heap != {}
    ensures exists m :: m in heap && forall h :: h in heap ==> HeapLe(m, h)
  {
    OrderLaws();
    var x :| x in heap;
    var others := heap - {x};
    if others == {} {
      assert heap == {x};
    } else {
      HasMinimum(others);
      var m :| m in others && forall h :: h in others ==> HeapLe(m, h);
      var least := if HeapLe(m, x) then m else x;
      assert forall h :: h in heap ==> h == x || h in others;
      assert forall h :: h in heap ==> HeapLe(least, h);
    }
  }

  /** `BinaryHeap::pop` under `Reverse`. */
  method PopMin(heap: set<HeapEntry>) returns (least: HeapEntry, rest: set<HeapEntry>)
    requires heap != {}
    ensures least in heap && rest == heap - {least}
    ensures forall h :: h in heap ==> HeapLe(least, h)
  {
    HasMinimum(heap);
    least :| least in heap && forall h :: h in heap ==> HeapLe(least, h);
    rest := heap - {least};
  }

  /** The heap's least key heads the remaining list, and consuming it keeps the cover. */
  lemma PopHeadsRest(rest: seq<Entry>, rem: seq<seq<Entry>>, heap: set<HeapEntry>, least: HeapEntry)
    requires Covers(rest, rem) && HeapOf(heap, rem) && least in heap
    requires forall h :: h in heap ==> HeapLe(least, h)
    ensures least.idx < |rem| && rem[least.idx] != [] && Ascending(rest) && rest != [] && rest[0] == rem[least.idx][0]
    ensures Covers(rest[1..], rem[least.idx := rem[least.idx][1..]])
  {
    var i := least.idx;
    var e := rem[i][0];
    assert e in rem[i] && e in rest;
    var first := rest[0];
    assert first in rest;
    var j :| 0 <= j < |rem| && first in rem[j];
    var head := rem[j][0];
    OrderLaws();
    assert Le(head.key, first.key) by {
      var k :| 0 <= k < |rem[j]| && rem[j][k] == first;
    }
    assert HeapEntry(head.key, j) in heap;
    assert Le(e.key, first.key);
    var p :| 0 <= p < |rest| && rest[p] == e;
    assert p == 0;
    CoverTail(rest, rem, i);
  }

  lemma CoverTail(rest: seq<Entry>, rem: seq<seq<Entry>>, i: nat)
    requires Covers(rest, rem) && i < |rem| && rem[i] != [] && rest != [] && rest[0] == rem[i][0]
    ensures Covers(rest[1..], rem[i := rem[i][1..]])
  {
    var rem' := rem[i := rem[i][1..]];
    forall e
      ensures e in rest[1..] <==> e in rest && e != rest[0]
      ensures e in rem[i][1..] <==> e in rem[i] && e != rem[i][0]
    {
      AscendingTail(rest, e);
      AscendingTail(rem[i], e);
    }
    assert rest[0] in rem[i];
    forall e | e in rest[1..]
      ensures exists j :: 0 <= j < |rem'| && e in rem'[j]
    {
      var j :| 0 <= j < |rem| && e in rem[j];
      assert e in rem'[j];
    }
  }

  lemma HeapEmptyIffDone(rest: seq<Entry>, rem: seq<seq<Entry>>, heap: set<HeapEntry>)
    requires Covers(rest, rem) && HeapOf(heap, rem)
    ensures Ascending(rest)
    ensures rest == [] <==> heap == {}
  {
    if rest != [] {
      assert rest[0] in rest;
      var i :| 0 <= i < |rem| && rest[0] in rem[i];
      assert HeapEntry(rem[i][0].key, i) in heap;
    }
    if heap != {} {
      var h :| h in heap;
      assert rem[h.idx][0] in rem[h.idx];
      assert rem[h.idx][0] in rest;
    }
  }

  /** Consuming the head of the remaining list: at or below the cursor it changes
      nothing; within the offset it uses up one skip; otherwise it is the next result. */
  lemma PageStep(rest: seq<Entry>, cursor: Option<Key>, skip: nat, n: nat)
    requires Ascending(rest) && rest != [] && n > 0
    ensures var tail := rest[1..]; var e := rest[0];
            PageOf(rest, cursor, skip, n) ==
            if cursor.Some? && Le(e.key, cursor.value) then PageOf(tail, cursor, skip, n)
            else if skip > 0 then PageOf(tail, cursor, skip - 1, n)
            else [e] + PageOf(tail, cursor, 0, n - 1)
  {
    hide After, Lt, Ascending;
    AfterStep(rest, cursor);
    assert skip > 0 ==> Drop(rest, skip) == Drop(rest[1..], skip - 1);
    assert rest == [rest[0]] + rest[1..];
    assert skip == 0 ==> Take(Drop(rest, 0), n) == [rest[0]] + Take(Drop(rest[1..], 0), n - 1);
  }

  /** What lies above the cursor, when the head of the list is consumed. */
  lemma AfterStep(rest: seq<Entry>, cursor: Option<Key>)
    requires Ascending(rest) && rest != []
    ensures if cursor.Some? && Le(rest[0].key, cursor.value) then After(rest, cursor) == After(rest[1..], cursor)
            else After(rest, cursor) == rest && After(rest[1..], cursor) == rest[1..]
  {
    hide Lt, From;
    if cursor.Some? {
      if Le(rest[0].key, cursor.value) {
        AtOrBelowCursor(rest, cursor.value);
      } else {
        AboveCursor(rest, cursor.value);
      }
    }
  }

  lemma AtOrBelowCursor(rest: seq<Entry>, c: Key)
    requires Ascending(rest) && rest != [] && Le(rest[0].key, c)
    ensures From(rest, c + [0]) == From(rest[1..], c + [0])
  {
    var n := Cut(rest[1..], c + [0]);
    NulIsSuccessor(c, c + [0]);
    LeThenLt(rest[0].key, c, c + [0]);
    assert rest == [rest[0]] + rest[1..];
    CutIs(rest, c + [0], n + 1);
  }

  lemma AboveCursor(rest: seq<Entry>, c: Key)
    requires Ascending(rest) && rest != [] && !Le(rest[0].key, c)
    ensures From(rest, c + [0]) == rest && From(rest[1..], c + [0]) == rest[1..]
  {
    LtTotal(rest[0].key, c);
    NulIsSuccessor(c, rest[0].key);
    LtIrreflexive(rest[0].key);
    if Lt(rest[0].key, c + [0]) && c + [0] != rest[0].key {
      LtTrans(rest[0].key, c + [0], rest[0].key);
    }
    CutIs(rest, c + [0], 0);
    if |rest| > 1 {
      var k := rest[1].key;
      LtIrreflexive(k);
      if Lt(k, c + [0]) {
        LtTrans(rest[0].key, k, c + [0]);
      }
      CutIs(rest[1..], c + [0], 0);
    }
  }

  lemma PageOfNothing(rest: seq<Entry>, cursor: Option<Key>, skip: nat, n: nat)
    requires rest == [] || n == 0
    ensures PageOf(rest, cursor, skip, n) == []
  {
  }

  // --- The streams as a group ---

  ghost predicate Group(streams: seq<ShardStream>, rem: seq<seq<Entry>>)
    reads streams
  {
    && |rem| == |streams|
    && (forall i :: 0 <= i < |streams| ==> streams[i].Valid() && streams[i].Remaining() == rem[i])
    && (forall i, j :: 0 <= i < j < |streams| ==> streams[i] != streams[j])
  }

  ghost predicate AllReady(streams: seq<ShardStream>)
    reads streams
  {
    forall i :: 0 <= i < |streams| ==> streams[i].Valid() && streams[i].Ready()
  }

  /** Takes the head of one stream and refills it. */
  method Pull(streams: seq<ShardStream>, idx: nat, ghost rem: seq<seq<Entry>>) returns (e: Entry)
    requires Group(streams, rem) && AllReady(streams) && idx < |streams| && rem[idx] != []
    modifies streams[idx]
    ensures e == rem[idx][0]
    ensures Group(streams, rem[idx := rem[idx][1..]]) && AllReady(streams)
  {
    e := streams[idx].Peek().value;
    streams[idx].Advance();
    streams[idx].EnsureBuffered();
  }

  /** Fetches until every stream has something to peek or nothing left. */
  method Prime(streams: seq<ShardStream>, ghost rem: seq<seq<Entry>>)
    requires Group(streams, rem)
    modifies streams
    ensures Group(streams, rem) && AllReady(streams)
  {
    hide Filter, From, ShardStream.Remaining;
    for i := 0 to |streams|
      invariant Group(streams, rem)
      invariant forall j :: 0 <= j < i ==> streams[j].Ready()
    {
      streams[i].EnsureBuffered();
    }
  }

  /** The heap over the primed streams: the key at the head of each. */
  method FillHeap(streams: seq<ShardStream>, ghost rem: seq<seq<Entry>>) returns (heap: set<HeapEntry>)
    requires Group(streams, rem) && AllReady(streams)
    ensures HeapOf(heap, rem)
  {
    hide ShardStream.Remaining, AllReady;
    heap := {};
    for i := 0 to |streams|
      invariant HeapOf(heap, rem[..i])
    {
      heap := PushHead(streams, heap, i, rem);
      assert rem[..i + 1] == rem[..i] + [rem[i]];
    }
    assert rem[..|streams|] == rem;
  }

  /** Pops the least key, takes its entry, refills its stream and pushes the next head. */
  method PopNext(streams: seq<ShardStream>, heap: set<HeapEntry>, ghost rest: seq<Entry>, ghost rem: seq<seq<Entry>>)
    returns (e: Entry, heap': set<HeapEntry>, ghost rem': seq<seq<Entry>>)
    requires Group(streams, rem) && AllReady(streams) && Covers(rest, rem) && HeapOf(heap, rem) && heap != {}
    modifies streams
    ensures Group(streams, rem') && AllReady(streams) && rest != [] && e == rest[0]
    ensures Covers(rest[1..], rem') && HeapOf(heap', rem')
  {
    hide Filter, From, Lt, ShardStream.Remaining;
    var least, others := PopMin(heap);
    PopHeadsRest(rest, rem, heap, least);
    e := Pull(streams, least.idx, rem);
    rem' := rem[least.idx := rem[least.idx][1..]];
    heap' := PushHead(streams, others, least.idx, rem');
  }

  /** Primes every stream, then pops the globally least key until the page is full. */
  method KWayMerge(streams: seq<ShardStream>, cursor: Option<Key>, skip: nat, limit: nat,
                   ghost all: seq<Entry>, ghost rem0: seq<seq<Entry>>)
    returns (results: seq<Entry>)
    requires Group(streams, rem0) && Covers(all, rem0)
    modifies streams
    ensures results == PageOf(all, cursor, skip, limit + 1)
  {
    hide Filter, From, PageOf, Covers, Ascending, ShardStream.Remaining, HeapOf, Lt, Group, AllReady;
    Prime(streams, rem0);
    var heap := FillHeap(streams, rem0);
    results := [];
    var skipped := 0;
    ghost var rest, rem := all, rem0;
    while true
      invariant Group(streams, rem) && AllReady(streams)
      invariant Covers(rest, rem) && HeapOf(heap, rem)
      invariant skipped <= skip && |results| <= limit
      invariant PageOf(all, cursor, skip, limit + 1)
             == results + PageOf(rest, cursor, skip - skipped, limit + 1 - |results|)
      decreases |rest|
    {
      HeapEmptyIffDone(rest, rem, heap);
      if heap == {} {
        PageOfNothing(rest, cursor, skip - skipped, limit + 1 - |results|);
        return;
      }
      PageStep(rest, cursor, skip - skipped, limit + 1 - |results|);
      var e;
      e, heap, rem := PopNext(streams, heap, rest, rem);
      rest := rest[1..];
      if cursor.Some? && Le(e.key, cursor.value) {
        continue;
      }
      if skipped < skip {
        skipped := skipped + 1;
        continue;
      }
      assert results + ([e] + PageOf(rest, cursor, 0, limit - |results|))
          == (results + [e]) + PageOf(rest, cursor, 0, limit - |results|);
      results := results + [e];
      if |results| > limit {
        PageOfNothing(rest, cursor, 0, 0);
        return;
      }
    }
  }

  method PushHead(streams: seq<ShardStream>, heap: set<HeapEntry>, idx: nat, ghost rem: seq<seq<Entry>>)
    returns (pushed: set<HeapEntry>)
    requires Group(streams, rem) && AllReady(streams) && idx < |streams|
    ensures pushed == heap + if rem[idx] == [] then {} else {HeapEntry(rem[idx][0].key, idx)}
  {
    pushed := heap;
    if streams[idx].Peek().Some? {
      pushed := pushed + {HeapEntry(streams[idx].Peek().value.key, idx)};
    }
  }

  // --- One list for all shards ---

  /** A repository's artifact table: every key lives in the shard its hash names. */
  ghost predicate Sharded(shards: seq<seq<Entry>>, shardOf: Key -> nat) {
    && |shards| == NUM_SHARDS
    && forall i :: 0 <= i < |shards| ==> Ascending(shards[i]) && forall e :: e in shards[i] ==> shardOf(e.key) == i
  }

  function Merge2(a: seq<Entry>, b: seq<Entry>): seq<Entry>
    decreases |a| + |b|
  {
    if a == [] then b
    else if b == [] then a
    else if Lt(a[0].key, b[0].key) then [a[0]] + Merge2(a[1..], b)
    else [b[0]] + Merge2(a, b[1..])
  }

  /** The whole repository as one list. */
  function Whole(shards: seq<seq<Entry>>): seq<Entry> {
    if shards == [] then [] else Merge2(shards[0], Whole(shards[1..]))
  }

  ghost predicate KeysApart(a: seq<Entry>, b: seq<Entry>) {
    forall e, f :: e in a && f in b ==> e.key != f.key
  }

  lemma {:induction false} Merge2Members(a: seq<Entry>, b: seq<Entry>)
    ensures forall e :: e in Merge2(a, b) <==> e in a || e in b
    decreases |a| + |b|
  {
    if a != [] && b != [] {
      assert a == [a[0]] + a[1..] && b == [b[0]] + b[1..];
      if Lt(a[0].key, b[0].key) {
        Merge2Members(a[1..], b);
      } else {
        Merge2Members(a, b[1..]);
      }
    }
  }

  ghost predicate AllAbove(k: Key, s: seq<Entry>) {
    forall e :: e in s ==> Lt(k, e.key)
  }

  lemma AscendingCons(e: Entry, s: seq<Entry>)
    requires Ascending(s) && AllAbove(e.key, s)
    ensures Ascending([e] + s)
  {
    forall i, j | 0 <= i < j < |[e] + s|
      ensures Lt(([e] + s)[i].key, ([e] + s)[j].key)
    {
      assert ([e] + s)[j] == s[j - 1] && s[j - 1] in s;
      if i > 0 {
        assert Lt(s[i - 1].key, s[j - 1].key);
      }
    }
  }

  lemma HeadBelowTail(s: seq<Entry>)
    requires Ascending(s) && s != []
    ensures Ascending(s[1..]) && AllAbove(s[0].key, s[1..])
  {
    forall e | e in s[1..]
      ensures Lt(s[0].key, e.key)
    {
      var i :| 0 <= i < |s[1..]| && s[1..][i] == e;
      assert Lt(s[0].key, s[i + 1].key);
    }
  }

  lemma {:induction false} Merge2Ascending(a: seq<Entry>, b: seq<Entry>)
    requires Ascending(a) && Ascending(b) && KeysApart(a, b)
    ensures Ascending(Merge2(a, b))
    decreases |a| + |b|
  {
    if a != [] && b != [] {
      assert a[0] in a && b[0] in b;
      LtTotal(a[0].key, b[0].key);
      HeadBelowTail(a);
      HeadBelowTail(b);
      if Lt(a[0].key, b[0].key) {
        assert KeysApart(a[1..], b);
        Merge2Ascending(a[1..], b);
        Merge2Members(a[1..], b);
        AboveBoth(a[0].key, b);
        AscendingCons(a[0], Merge2(a[1..], b));
      } else {
        assert KeysApart(a, b[1..]);
        Merge2Ascending(a, b[1..]);
        Merge2Members(a, b[1..]);
        AboveBoth(b[0].key, a);
        AscendingCons(b[0], Merge2(a, b[1..]));
      }
    }
  }

  lemma AboveBoth(k: Key, s: seq<Entry>)
    requires Ascending(s) && s != [] && Lt(k, s[0].key)
    ensures AllAbove(k, s)
  {
    HeadBelowTail(s);
    assert s == [s[0]] + s[1..];
    forall e | e in s
      ensures Lt(k, e.key)
    {
      if e != s[0] {
        LtTrans(k, s[0].key, e.key);
      }
    }
  }

  lemma {:induction false} WholeMembers(shards: seq<seq<Entry>>)
    ensures forall i, e :: 0 <= i < |shards| && e in shards[i] ==> e in Whole(shards)
    ensures forall e :: e in Whole(shards) ==> exists i :: 0 <= i < |shards| && e in shards[i]
  {
    if shards != [] {
      WholeMembers(shards[1..]);
      Merge2Members(shards[0], Whole(shards[1..]));
      forall i, e | 0 <= i < |shards| && e in shards[i]
        ensures e in Whole(shards)
      {
        if i > 0 {
          assert e in shards[1..][i - 1];
        }
      }
      forall e | e in Whole(shards)
        ensures exists i :: 0 <= i < |shards| && e in shards[i]
      {
        if e !in shards[0] {
          var i :| 0 <= i < |shards[1..]| && e in shards[1..][i];
          assert e in shards[i + 1];
        }
      }
    }
  }

  ghost predicate Apart(shards: seq<seq<Entry>>) {
    && (forall i :: 0 <= i < |shards| ==> Ascending(shards[i]))
    && (forall i, j :: 0 <= i < j < |shards| ==> KeysApart(shards[i], shards[j]))
  }

  lemma {:induction false} WholeAscending(shards: seq<seq<Entry>>)
    requires Apart(shards)
    ensures Ascending(Whole(shards))
  {
    if shards != [] {
      assert forall i :: 1 <= i < |shards| ==> shards[i] == shards[1..][i - 1];
      WholeAscending(shards[1..]);
      WholeMembers(shards[1..]);
      Merge2Ascending(shards[0], Whole(shards[1..]));
    }
  }

  lemma ShardedIsApart(shards: seq<seq<Entry>>, shardOf: Key -> nat)
    requires Sharded(shards, shardOf)
    ensures Apart(shards)
  {
  }

  // --- Listing and search ---

  datatype Page = Page(items: seq<Entry>, next: Option<Key>)

  method PaginateResults(items: seq<Entry>, limit: nat) returns (page: Page)
    ensures page == Paginate(items, limit)
  {
    var at := if limit == 0 then 0 else limit - 1;
    var next := if at < |items| && |items| > limit then Some(items[at].key) else None;
    page := Page(Take(items, limit), next);
  }

  /** The page of a result list that holds at most one item too many. */
  function Paginate(items: seq<Entry>, limit: nat): Page {
    if |items| <= limit then Page(items, None)
    else Page(items[..limit], Some(items[if limit == 0 then 0 else limit - 1].key))
  }

  /** One page of a fixed listing, as the listing's definition would have it. */
  function PageAt(full: seq<Entry>, cursor: Option<Key>, offset: nat, limit: nat): Page {
    Paginate(PageOf(full, cursor, if cursor.Some? then 0 else offset, limit + 1), limit)
  }

  /** What that page is: the run of `limit` items that begins just above the cursor or, without
      one, at the offset; and a cursor exactly when more items follow. */
  lemma PageIsSlice(all: seq<Entry>, cursor: Option<Key>, offset: nat, limit: nat) returns (n: nat)
    requires Ascending(all)
    ensures n <= |all|
    ensures cursor.Some? ==> forall i :: 0 <= i < n ==> Le(all[i].key, cursor.value)
    ensures cursor.Some? ==> forall i :: n <= i < |all| ==> Lt(cursor.value, all[i].key)
    ensures cursor.None? ==> n == if offset < |all| then offset else |all|
    ensures var end := if n + limit < |all| then n + limit else |all|;
            var last := if limit == 0 then n else end - 1;
            PageAt(all, cursor, offset, limit) == Page(all[n..end], if end == |all| then None else Some(all[last].key))
  {
    n := if cursor.Some? then Cut(all, cursor.value + [0]) else if offset < |all| then offset else |all|;
    if cursor.Some? {
      CutAtCursor(all, cursor.value);
    }
    FirstOfSlice(all, cursor, if cursor.Some? then 0 else offset, n);
    PaginateSlice(all, n, limit);
    hide After, Lt, Le, Ascending, Drop, Cut, Take, Paginate;
  }

  lemma PaginateSlice(all: seq<Entry>, n: nat, limit: nat)
    requires n <= |all|
    ensures var end := if n + limit < |all| then n + limit else |all|;
            var last := if limit == 0 then n else end - 1;
            Page(all[n..end], if end == |all| then None else Some(all[last].key))
            == Paginate(Take(all[n..], limit + 1), limit)
  {
    var rest := all[n..];
    if limit < |rest| {
      assert Take(rest, limit + 1)[..limit] == all[n..n + limit];
    } else {
      assert Take(rest, limit + 1) == all[n..|all|];
    }
  }

  lemma FirstOfSlice(all: seq<Entry>, cursor: Option<Key>, skip: nat, n: nat)
    requires n <= |all|
    requires n == if cursor.Some? then Cut(all, cursor.value + [0]) else if skip < |all| then skip else |all|
    requires cursor.Some? ==> skip == 0
    ensures Drop(After(all, cursor), skip) == all[n..]
  {
    hide Lt, Cut;
  }

  lemma CutAtCursor(all: seq<Entry>, c: Key)
    requires Ascending(all)
    ensures var n := Cut(all, c + [0]);
            && (forall i :: 0 <= i < n ==> Le(all[i].key, c))
            && (forall i :: n <= i < |all| ==> Lt(c, all[i].key))
  {
    hide Lt;
    var n := Cut(all, c + [0]);
    forall i | 0 <= i < n
      ensures Le(all[i].key, c)
    {
      NulIsSuccessor(c, all[i].key);
      LtTotal(all[i].key, c);
      if Lt(c, all[i].key) {
        LeThenLt(c + [0], all[i].key, c + [0]);
        LtIrreflexive(c + [0]);
      }
    }
    forall i | n <= i < |all|
      ensures Lt(c, all[i].key)
    {
      assert all[i] in From(all, c + [0]) by {
        assert From(all, c + [0])[i - n] == all[i];
      }
      FromMembers(all, c + [0], all[i]);
      NulIsSuccessor(c, all[i].key);
    }
  }

  function PerShardBatch(limit: nat): (n: nat)
    ensures n >= 8
  {
    var even := limit / NUM_SHARDS + 1;
    (if even < 4 then 4 else even) * 2
  }

  /** Starting every shard's scan at `start` cannot lose a wanted key above the cursor. */
  ghost predicate SafeStart(q: Query, cursor: Option<Key>, start: Key) {
    forall k :: q.Wants(k) && (cursor.Some? ==> Lt(cursor.value, k)) ==> Le(start, k)
  }

  lemma AfterMembers(s: seq<Entry>, cursor: Option<Key>)
    requires Ascending(s)
    ensures Ascending(After(s, cursor))
    ensures forall e :: e in After(s, cursor) <==> e in s && (cursor.Some? ==> Lt(cursor.value, e.key))
  {
    if cursor.Some? {
      forall e
        ensures e in After(s, cursor) <==> e in s && Lt(cursor.value, e.key)
      {
        FromMembers(s, cursor.value + [0], e);
        NulIsSuccessor(cursor.value, e.key);
      }
    }
  }

  lemma StartDoesNotMatter(all: seq<Entry>, q: Query, cursor: Option<Key>, start: Key)
    requires Ascending(all) && SafeStart(q, cursor, start)
    ensures After(Filter(q, From(all, start)), cursor) == After(Filter(q, all), cursor)
  {
    var cut, whole := Filter(q, From(all, start)), Filter(q, all);
    FilterAscending(q, From(all, start));
    FilterAscending(q, all);
    AfterMembers(cut, cursor);
    AfterMembers(whole, cursor);
    FilterMembers(q, From(all, start));
    FilterMembers(q, all);
    forall e
      ensures e in After(cut, cursor) <==> e in After(whole, cursor)
    {
      FromMembers(all, start, e);
    }
    AscendingUnique(After(cut, cursor), After(whole, cursor));
  }

  /** What the streams hold at the start is the wanted part of the whole list. */
  lemma StreamsCover(shards: seq<seq<Entry>>, q: Query, start: Key, rem: seq<seq<Entry>>)
    requires Apart(shards) && |rem| == |shards|
    requires forall i :: 0 <= i < |shards| ==> rem[i] == Filter(q, From(shards[i], start))
    ensures Covers(Filter(q, From(Whole(shards), start)), rem)
  {
    WholeAscending(shards);
    WholeMembers(shards);
    var all := Whole(shards);
    FilterAscending(q, From(all, start));
    WantedMembers(all, q, start);
    forall i | 0 <= i < |shards|
      ensures Ascending(rem[i])
      ensures forall e :: e in rem[i] <==> e in shards[i] && Le(start, e.key) && q.Wants(e.key)
    {
      FilterAscending(q, From(shards[i], start));
      WantedMembers(shards[i], q, start);
    }
    forall i, j, e | 0 <= i < j < |rem| && e in rem[i]
      ensures e !in rem[j]
    {
      assert KeysApart(shards[i], shards[j]);
    }
    forall e | e in Filter(q, From(all, start))
      ensures exists i :: 0 <= i < |rem| && e in rem[i]
    {
      var i :| 0 <= i < |shards| && e in shards[i];
      assert e in rem[i];
    }
  }

  lemma WantedMembers(s: seq<Entry>, q: Query, start: Key)
    requires Ascending(s)
    ensures forall e :: e in Filter(q, From(s, start)) <==> e in s && Le(start, e.key) && q.Wants(e.key)
  {
    FilterMembers(q, From(s, start));
    forall e
      ensures e in From(s, start) <==> e in s && Le(start, e.key)
    {
      FromMembers(s, start, e);
    }
  }

  /** The shared body of the two listing operations: fan out, merge, paginate. */
  method ListQuery(shards: seq<seq<Entry>>, q: Query, start: Key, cursor: Option<Key>, offset: nat, limit: nat,
                   utf8: Key -> bool)
    returns (page: Page)
    requires Apart(shards) && Le(q.prefix, start) && SafeStart(q, cursor, start)
    ensures page == PageAt(Filter(q, Whole(shards)), cursor, offset, limit)
  {
    hide Filter, From, Lt, Whole, SafeStart, ShardStream.Remaining, Covers;
    var batch := PerShardBatch(limit);
    var end := StringPrefixEnd(q.prefix, utf8);
    var streams: seq<ShardStream> := [];
    ghost var rem: seq<seq<Entry>> := [];
    for i := 0 to |shards|
      invariant |streams| == |rem| == i
      invariant forall j :: 0 <= j < i ==> rem[j] == Filter(q, From(shards[j], start))
      invariant forall j :: 0 <= j < i ==> fresh(streams[j])
      invariant Group(streams, rem)
    {
      var s := new ShardStream(shards[i], q, end, start, batch);
      streams := streams + [s];
      rem := rem + [Filter(q, From(shards[i], start))];
    }
    StreamsCover(shards, q, start, rem);
    var skip := if cursor.Some? then 0 else offset;
    var items := KWayMerge(streams, cursor, skip, limit, Filter(q, From(Whole(shards), start)), rem);
    WholeAscending(shards);
    StartDoesNotMatter(Whole(shards), q, cursor, start);
    page := PaginateResults(items, limit);
  }

  method ListArtifacts(shards: seq<seq<Entry>>, prefix: Key, cursor: Option<Key>, offset: nat, limit: nat,
                       utf8: Key -> bool, lower: Key -> Key, ghost shardOf: Key -> nat)
    returns (page: Page, ghost all: seq<Entry>)
    requires Sharded(shards, shardOf)
    ensures Ascending(all) && all == Filter(Query(prefix, None, lower), Whole(shards))
    ensures forall e :: e in all <==> prefix <= e.key && exists i :: 0 <= i < |shards| && e in shards[i]
    ensures page == PageAt(all, cursor, offset, limit)
  {
    var start := if cursor.Some? && Lt(prefix, cursor.value) then cursor.value else prefix;
    ShardedIsApart(shards, shardOf);
    var q := Query(prefix, None, lower);
    forall k | q.Wants(k) && (cursor.Some? ==> Lt(cursor.value, k))
      ensures Le(start, k)
    {
      PrefixRange(prefix, k);
    }
    page := ListQuery(shards, q, start, cursor, offset, limit, utf8);
    all := Filter(q, Whole(shards));
    ListingMembers(shards, q);
  }

  /** The listing that is paged holds exactly the shards' entries that the query wants. */
  lemma ListingMembers(shards: seq<seq<Entry>>, q: Query)
    requires Apart(shards)
    ensures Ascending(Filter(q, Whole(shards)))
    ensures forall e :: e in Filter(q, Whole(shards)) <==> q.Wants(e.key) && exists i :: 0 <= i < |shards| && e in shards[i]
  {
    WholeAscending(shards);
    WholeMembers(shards);
    FilterAscending(q, Whole(shards));
    FilterMembers(q, Whole(shards));
  }

  method SearchArtifacts(shards: seq<seq<Entry>>, query: Key, cursor: Option<Key>, offset: nat, limit: nat,
                         utf8: Key -> bool, lower: Key -> Key, ghost shardOf: Key -> nat)
    returns (page: Page, ghost all: seq<Entry>)
    requires Sharded(shards, shardOf)
    ensures Ascending(all) && all == Filter(Query([], Some(lower(query)), lower), Whole(shards))
    ensures forall e :: e in all <==>
              && (exists i :: 0 <= i < |shards| && e in shards[i])
              && (exists at :: OccursAt(lower(e.key), lower(query), at))
    ensures page == PageAt(all, cursor, offset, limit)
  {
    var start := if cursor.Some? then cursor.value else [];
    ShardedIsApart(shards, shardOf);
    var q := Query([], Some(lower(query)), lower);
    forall k | q.Wants(k) && (cursor.Some? ==> Lt(cursor.value, k))
      ensures Le(start, k)
    {
      PrefixRange([], k);
    }
    PrefixRange([], start);
    page := ListQuery(shards, q, start, cursor, offset, limit, utf8);
    all := Filter(q, Whole(shards));
    hide Filter, Query.Wants, Whole, OccursAt, Contains, PageAt;
    ListingMembers(shards, q);
    SearchWants(q);
  }

  lemma SearchWants(q: Query)
    requires q.prefix == [] && q.needle.Some?
    ensures forall k :: q.Wants(k) <==> exists at :: OccursAt(q.lower(k), q.needle.value, at)
  {
    hide Contains;
    forall k
      ensures q.Wants(k) <==> exists at :: OccursAt(q.lower(k), q.needle.value, at)
    {
      ContainsIff(q.lower(k), q.needle.value);
    }
  }
}
