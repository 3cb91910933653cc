/** Following cursors: the pages of a fixed listing put back together. */
module Paging {
  import opened Lex
  import opened Scan
  import opened Listing

  /** What is still to come when a client holds this cursor. */
  function Ahead(full: seq<Entry>, cursor: Option<Key>, offset: nat): seq<Entry> {
    Drop(After(full, cursor), if cursor.Some? then 0 else offset)
  }

  /** The cursor a page hands out points just past the page, except that a page of
      limit 0 points past one item it did not carry. */
  lemma NextCursor(full: seq<Entry>, cursor: Option<Key>, offset: nat, limit: nat)
    requires Ascending(full)
    ensures var page := PageAt(full, cursor, offset, limit);
            var ahead := Ahead(full, cursor, offset);
            && (page.next.None? <==> |ahead| <= limit)
            && page.items == Take(ahead, limit)
            && (page.next.Some? ==> Ahead(full, page.next, offset) == ahead[if limit == 0 then 1 else limit..])
  {
    hide Lt, Cut, From, After, Ascending, PageAt;
    var ahead := Ahead(full, cursor, offset);
    PageOfAhead(full, cursor, offset, limit);
    if |ahead| > limit {
      CursorInside(full, cursor, offset, if limit == 0 then 0 else limit - 1);
    }
  }

  lemma CursorInside(full: seq<Entry>, cursor: Option<Key>, offset: nat, i: nat)
    requires Ascending(full) && i < |Ahead(full, cursor, offset)|
    ensures var ahead := Ahead(full, cursor, offset);
            Ahead(full, Some(ahead[i].key), offset) == ahead[i + 1..]
  {
    hide Lt, Cut, From, After, Ascending;
    AheadIsSuffix(full, cursor, offset);
    var d :| 0 <= d <= |full| && Ahead(full, cursor, offset) == full[d..];
    assert full[d..][i] == full[d + i];
    CutAfter(full, d + i);
    assert full[d..][i + 1..] == full[d + i + 1..];
  }

  lemma PageOfAhead(full: seq<Entry>, cursor: Option<Key>, offset: nat, limit: nat)
    ensures var page := PageAt(full, cursor, offset, limit);
            var ahead := Ahead(full, cursor, offset);
            if |ahead| <= limit then page == Page(ahead, None)
            else page == Page(ahead[..limit], Some(ahead[if limit == 0 then 0 else limit - 1].key))
  {
    hide Lt, Cut, From, After;
    var ahead := Ahead(full, cursor, offset);
    assert PageAt(full, cursor, offset, limit) == Paginate(Take(ahead, limit + 1), limit);
    if |ahead| > limit {
      assert Take(ahead, limit + 1)[..limit] == ahead[..limit];
    }
  }

  lemma AheadAtStart(full: seq<Entry>, offset: nat)
    ensures Ahead(full, None, offset) == Drop(full, offset)
  {
  }

  lemma AheadIsSuffix(full: seq<Entry>, cursor: Option<Key>, offset: nat)
    ensures exists d :: 0 <= d <= |full| && Ahead(full, cursor, offset) == full[d..]
  {
    if cursor.None? {
      assert full[0..] == full;
      assert Ahead(full, cursor, offset) == full[if offset <= |full| then offset else |full|..];
    } else {
      assert Ahead(full, cursor, offset) == full[Cut(full, cursor.value + [0])..];
    }
  }

  lemma CutAfter(s: seq<Entry>, i: nat)
    requires Ascending(s) && i < |s|
    ensures After(s, Some(s[i].key)) == s[i + 1..]
  {
    var bar := s[i].key + [0];
    NulIsSuccessor(s[i].key, bar);
    forall j | 0 <= j < i + 1
      ensures Lt(s[j].key, bar)
    {
      if j < i {
        LtTrans(s[j].key, s[i].key, bar);
      }
    }
    if i + 1 < |s| {
      NulIsSuccessor(s[i].key, s[i + 1].key);
      LtIrreflexive(s[i + 1].key);
      if Lt(s[i + 1].key, bar) && bar != s[i + 1].key {
        LtTrans(s[i + 1].key, bar, s[i + 1].key);
      }
    }
    CutIs(s, bar, i + 1);
  }

  /** The client's loop: ask for pages until none is left, concatenating. It ends for
      every limit, since each cursor moves past at least one item. */
  ghost function AllPages(full: seq<Entry>, cursor: Option<Key>, offset: nat, limit: nat): seq<Entry>
    requires Ascending(full)
    decreases |Ahead(full, cursor, offset)|
  {
    var page := PageAt(full, cursor, offset, limit);
    NextCursor(full, cursor, offset, limit);
    if page.next.None? then page.items else page.items + AllPages(full, page.next, offset, limit)
  }

  lemma {:induction false} PagesFrom(full: seq<Entry>, cursor: Option<Key>, offset: nat, limit: nat)
    requires Ascending(full)
    ensures AllPages(full, cursor, offset, limit) == if limit == 0 then [] else Ahead(full, cursor, offset)
    decreases |Ahead(full, cursor, offset)|
  {
    hide Lt, Cut, From, After, Ahead, PageAt, Ascending;
    var page := PageAt(full, cursor, offset, limit);
    var ahead := Ahead(full, cursor, offset);
    NextCursor(full, cursor, offset, limit);
    if page.next.Some? {
      PagesFrom(full, page.next, offset, limit);
      if limit > 0 {
        assert ahead == ahead[..limit] + ahead[limit..];
      }
    }
  }

  /** Paging delivers the listing, after the initial offset, with no gap and no repeat,
      exactly when the limit is positive or there was nothing to deliver. */
  lemma PagingComplete(full: seq<Entry>, offset: nat, limit: nat)
    requires Ascending(full)
    ensures AllPages(full, None, offset, limit) == Drop(full, offset) <==> limit >= 1 || |full| <= offset
  {
    PagesFrom(full, None, offset, limit);
  }

  /** The two-item listing that shows a limit of 0 skipping everything. */
  lemma LimitZeroSkips(v: Value)
    ensures var full := [Entry([1], v), Entry([2], v)];
            var page := PageAt(full, None, 0, 0);
            page.items == [] && page.next == Some([1]) && PageAt(full, page.next, 0, 0).next == Some([2])
  {
    var full := [Entry([1], v), Entry([2], v)];
    assert Ascending(full);
    NextCursor(full, None, 0, 0);
    assert Ahead(full, None, 0) == full;
    assert Take(full, 1)[0] == full[0];
    NextCursor(full, Some([1]), 0, 0);
    CutAfter(full, 0);
    assert |Ahead(full, Some([1]), 0)| == 1;
  }

  /** A client driving the real operation page by page gets the whole listing. */
  method FetchAll(shards: seq<seq<Entry>>, prefix: Key, offset: nat, limit: nat,
                  utf8: Key -> bool, lower: Key -> Key, ghost shardOf: Key -> nat)
    returns (items: seq<Entry>)
    requires Sharded(shards, shardOf) && limit >= 1
    ensures items == Drop(Filter(Query(prefix, None, lower), Whole(shards)), offset)
  {
    hide Filter, Whole, Lt, From, After, Cut, PageAt, Ahead, Ascending, Sharded;
    ghost var full := Filter(Query(prefix, None, lower), Whole(shards));
    ShardedIsApart(shards, shardOf);
    WholeAscending(shards);
    FilterAscending(Query(prefix, None, lower), Whole(shards));
    AheadAtStart(full, offset);
    items := [];
    var cursor: Option<Key> := None;
    while true
      invariant items + Ahead(full, cursor, offset) == Drop(full, offset)
      decreases |Ahead(full, cursor, offset)|
    {
      var page, _ := ListArtifacts(shards, prefix, cursor, offset, limit, utf8, lower, shardOf);
      NextCursor(full, cursor, offset, limit);
      ghost var ahead := Ahead(full, cursor, offset);
      assert ahead == page.items + ahead[|page.items|..];
      items := items + page.items;
      if page.next.None? {
        return;
      }
      cursor := page.next;
    }
  }
}
