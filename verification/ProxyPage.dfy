/** Listing a proxy repository: one bounded page from every member, merged so that the
    first member holding a path wins. */
module ProxyPage {
  import opened Lex
  import opened Scan
  import opened Listing

  /** The ordered-map `entry(..).or_insert(..)` on an ascending list. */
  function OrInsert(m: seq<Entry>, e: Entry): seq<Entry> {
    if m == [] || Lt(e.key, m[0].key) then [e] + m
    else if m[0].key == e.key then m
    else [m[0]] + OrInsert(m[1..], e)
  }

  ghost predicate HasKey(s: seq<Entry>, k: Key) {
    exists e :: e in s && e.key == k
  }

  lemma {:induction false} OrInsertMembers(m: seq<Entry>, e: Entry)
    requires Ascending(m)
    ensures forall x :: x in OrInsert(m, e) <==> x in m || (x == e && !HasKey(m, e.key))
  {
    OrderLaws();
    if m != [] {
      HeadBelowTail(m);
      assert m == [m[0]] + m[1..];
      if Lt(e.key, m[0].key) {
        assert forall x :: x in m ==> x.key != e.key;
      } else if m[0].key == e.key {
        assert m[0] in m;
      } else {
        OrInsertMembers(m[1..], e);
        assert HasKey(m, e.key) <==> HasKey(m[1..], e.key);
      }
    }
  }

  lemma {:induction false} OrInsertAscending(m: seq<Entry>, e: Entry)
    requires Ascending(m)
    ensures Ascending(OrInsert(m, e))
  {
    if m != [] {
      LtTotal(e.key, m[0].key);
      HeadBelowTail(m);
      if Lt(e.key, m[0].key) {
        AboveBoth(e.key, m);
        AscendingCons(e, m);
      } else if m[0].key != e.key {
        OrInsertAscending(m[1..], e);
        OrInsertMembers(m[1..], e);
        AscendingCons(m[0], OrInsert(m[1..], e));
      }
    }
  }

  // --- First member wins ---

  /** `u` is the union of the members' lists, each path with the record of the first
      member that has it. */
  ghost predicate FirstWins(u: seq<Entry>, lists: seq<seq<Entry>>) {
    && Ascending(u)
    && forall e :: e in u <==> Wins(e, lists)
  }

  ghost predicate Wins(e: Entry, lists: seq<seq<Entry>>) {
    exists i :: WinsAt(e, lists, i)
  }

  ghost predicate WinsAt(e: Entry, lists: seq<seq<Entry>>, i: nat) {
    i < |lists| && e in lists[i] && forall j :: 0 <= j < i ==> !HasKey(lists[j], e.key)
  }

  lemma WinsSnoc(e: Entry, lists: seq<seq<Entry>>, last: seq<Entry>)
    ensures Wins(e, lists + [last]) <==>
            Wins(e, lists) || (e in last && forall i :: 0 <= i < |lists| ==> !HasKey(lists[i], e.key))
  {
    var longer := lists + [last];
    if Wins(e, lists) {
      var i: nat :| WinsAt(e, lists, i);
      assert WinsAt(e, longer, i);
    }
    if e in last && forall i :: 0 <= i < |lists| ==> !HasKey(lists[i], e.key) {
      assert WinsAt(e, longer, |lists|);
    }
    if Wins(e, longer) {
      var i: nat :| WinsAt(e, longer, i);
      if i < |lists| {
        assert forall j :: 0 <= j < i ==> longer[j] == lists[j];
        assert WinsAt(e, lists, i);
      } else {
        assert forall j :: 0 <= j < i ==> longer[j] == lists[j];
      }
    }
  }

  /** Some list holds the key exactly when the union does. */
  lemma UnionKeys(u: seq<Entry>, lists: seq<seq<Entry>>, k: Key)
    requires FirstWins(u, lists)
    ensures HasKey(u, k) <==> exists i :: 0 <= i < |lists| && HasKey(lists[i], k)
  {
    if HasKey(u, k) {
      var e :| e in u && e.key == k;
      var i: nat :| WinsAt(e, lists, i);
      assert HasKey(lists[i], k);
    }
    if exists i :: 0 <= i < |lists| && HasKey(lists[i], k) {
      var i :| 0 <= i < |lists| && HasKey(lists[i], k);
      FirstHolder(lists, k, i);
      var f :| 0 <= f < |lists| && HasKey(lists[f], k) && forall j :: 0 <= j < f ==> !HasKey(lists[j], k);
      var e :| e in lists[f] && e.key == k;
      assert WinsAt(e, lists, f);
    }
  }

  lemma {:induction false} FirstHolder(lists: seq<seq<Entry>>, k: Key, i: nat)
    requires i < |lists| && HasKey(lists[i], k)
    ensures exists f :: 0 <= f <= i && HasKey(lists[f], k) && forall j :: 0 <= j < f ==> !HasKey(lists[j], k)
    decreases i
  {
    if j :| 0 <= j < i && HasKey(lists[j], k) {
      FirstHolder(lists, k, j);
    }
  }

  /** One more member's entries, inserted in turn. */
  function InsertAll(m: seq<Entry>, items: seq<Entry>): seq<Entry>
    decreases |items|
  {
    if items == [] then m else InsertAll(OrInsert(m, items[0]), items[1..])
  }

  lemma {:induction false} InsertAllUnion(m: seq<Entry>, items: seq<Entry>)
    requires Ascending(m) && Ascending(items)
    ensures Ascending(InsertAll(m, items))
    ensures forall x :: x in InsertAll(m, items) <==> x in m || (x in items && !HasKey(m, x.key))
    decreases |items|
  {
    if items != [] {
      var m' := OrInsert(m, items[0]);
      OrInsertMembers(m, items[0]);
      OrInsertAscending(m, items[0]);
      HeadBelowTail(items);
      OrderLaws();
      assert items == [items[0]] + items[1..];
      assert forall x :: x in items[1..] ==> (HasKey(m', x.key) <==> HasKey(m, x.key));
      InsertAllUnion(m', items[1..]);
    }
  }

  lemma AddMember(u: seq<Entry>, items: seq<Entry>, lists: seq<seq<Entry>>)
    requires FirstWins(u, lists) && Ascending(items)
    ensures FirstWins(InsertAll(u, items), lists + [items])
  {
    InsertAllUnion(u, items);
    forall x
      ensures x in InsertAll(u, items) <==> Wins(x, lists + [items])
    {
      WinsSnoc(x, lists, items);
      UnionKeys(u, lists, x.key);
    }
  }

  /** Merging one more member's entries into the map. */
  method MergeMember(m: seq<Entry>, items: seq<Entry>) returns (m': seq<Entry>)
    ensures m' == InsertAll(m, items)
  {
    m' := m;
    for i := 0 to |items|
      invariant InsertAll(m, items) == InsertAll(m', items[i..])
    {
      assert items[i..][1..] == items[i + 1..];
      m' := OrInsert(m', items[i]);
    }
  }

  /** The union of all the lists, the earlier ones first. */
  function Union(lists: seq<seq<Entry>>): seq<Entry> {
    if lists == [] then [] else InsertAll(Union(lists[..|lists| - 1]), lists[|lists| - 1])
  }

  /** Ascending lists have exactly one union in which the first member wins. */
  lemma {:induction false} UnionIsFirstWins(lists: seq<seq<Entry>>, u: seq<Entry>)
    requires Lists(lists)
    ensures FirstWins(u, lists) <==> u == Union(lists)
  {
    if lists == [] {
      assert FirstWins([], lists);
    } else {
      var some := lists[..|lists| - 1];
      UnionIsFirstWins(some, Union(some));
      AddMember(Union(some), lists[|lists| - 1], some);
      assert lists == some + [lists[|lists| - 1]];
    }
    if FirstWins(u, lists) {
      AscendingUnique(u, Union(lists));
    }
  }

  // --- Bounded pages suffice for the head of the union ---

  /** An ascending list has no key earlier than a list containing all its keys does. */
  lemma {:induction false} RankLe(a: seq<Entry>, u: seq<Entry>, p: nat, r: nat)
    requires Ascending(a) && Ascending(u) && p < |a| && r < |u| && a[p].key == u[r].key
    requires forall i :: 0 <= i <= p ==> HasKey(u, a[i].key)
    ensures p <= r
  {
    if p > 0 {
      assert HasKey(u, a[p - 1].key);
      var e :| e in u && e.key == a[p - 1].key;
      var q :| 0 <= q < |u| && u[q] == e;
      OrderLaws();
      assert Lt(a[p - 1].key, a[p].key);
      assert q < r;
      RankLe(a, u, p - 1, q);
    }
  }

  function Firsts(lists: seq<seq<Entry>>, n: nat): (r: seq<seq<Entry>>)
    ensures |r| == |lists| && forall i :: 0 <= i < |lists| ==> r[i] == Take(lists[i], n)
  {
    seq(|lists|, i requires 0 <= i < |lists| => Take(lists[i], n))
  }

  ghost predicate Lists(lists: seq<seq<Entry>>) {
    forall i :: 0 <= i < |lists| ==> Ascending(lists[i])
  }

  lemma KeyInFirsts(u: seq<Entry>, m: seq<Entry>, lists: seq<seq<Entry>>, n: nat)
    requires Lists(lists) && FirstWins(u, lists) && FirstWins(m, Firsts(lists, n))
    ensures forall e :: e in m ==> HasKey(u, e.key)
  {
    forall e | e in m
      ensures HasKey(u, e.key)
    {
      var i: nat :| WinsAt(e, Firsts(lists, n), i);
      assert e in lists[i];
      assert HasKey(lists[i], e.key);
      UnionKeys(u, lists, e.key);
    }
  }

  /** Each of the first `n` paths of the union sits within its winner's first `n`. */
  lemma HeadIsServed(u: seq<Entry>, m: seq<Entry>, lists: seq<seq<Entry>>, n: nat, r: nat)
    requires Lists(lists) && FirstWins(u, lists) && FirstWins(m, Firsts(lists, n))
    requires r < |u| && r < n
    ensures u[r] in m
  {
    assert u[r] in u;
    var i: nat :| WinsAt(u[r], lists, i);
    var a := lists[i];
    var p :| 0 <= p < |a| && a[p] == u[r];
    forall k | 0 <= k <= p
      ensures HasKey(u, a[k].key)
    {
      assert a[k] in a;
      assert HasKey(a, a[k].key);
      UnionKeys(u, lists, a[k].key);
    }
    RankLe(a, u, p, r);
    assert Take(a, n)[p] == u[r];
    forall j | 0 <= j < i
      ensures !HasKey(Take(lists[j], n), u[r].key)
    {
      assert forall e :: e in Take(lists[j], n) ==> e in lists[j];
    }
    assert WinsAt(u[r], Firsts(lists, n), i);
  }

  lemma HeadKeysServed(u: seq<Entry>, m: seq<Entry>, lists: seq<seq<Entry>>, n: nat, r: nat)
    requires Lists(lists) && FirstWins(u, lists) && FirstWins(m, Firsts(lists, n))
    requires r < |u| && r < n
    ensures forall i :: 0 <= i <= r ==> HasKey(m, u[i].key)
  {
    hide FirstWins, Lists;
    forall i | 0 <= i <= r
      ensures HasKey(m, u[i].key)
    {
      HeadIsServed(u, m, lists, n, i);
    }
  }

  /** Item `r` of the whole union, when a page reaches it, has the same rank in the bounded one. */
  lemma SameRank(u: seq<Entry>, m: seq<Entry>, lists: seq<seq<Entry>>, n: nat, r: nat)
    requires Lists(lists) && FirstWins(u, lists) && FirstWins(m, Firsts(lists, n))
    requires forall e :: e in m ==> HasKey(u, e.key)
    requires r < |u| && r < n
    ensures |m| > r && u[r] == m[r]
  {
    assert Ascending(u) && Ascending(m);
    hide FirstWins, Lists, Ascending, HasKey;
    HeadKeysServed(u, m, lists, n, r);
    HeadIsServed(u, m, lists, n, r);
    var s :| 0 <= s < |m| && m[s] == u[r];
    RanksAgree(u, m, r, s);
  }

  lemma RanksAgree(u: seq<Entry>, m: seq<Entry>, r: nat, s: nat)
    requires Ascending(u) && Ascending(m) && r < |u| && s < |m| && u[r].key == m[s].key
    requires forall e :: e in m ==> HasKey(u, e.key)
    requires forall i :: 0 <= i <= r ==> HasKey(m, u[i].key)
    ensures r == s
  {
    hide Ascending, HasKey;
    RankLe(m, u, s, r);
    RankLe(u, m, r, s);
  }

  /** The union of the members' first `n` items agrees with the whole union on its first
      `n` items, although further on it may even hold records of lower priority. */
  lemma BoundedUnion(u: seq<Entry>, m: seq<Entry>, lists: seq<seq<Entry>>, n: nat)
    requires Lists(lists) && FirstWins(u, lists) && FirstWins(m, Firsts(lists, n))
    ensures Take(m, n) == Take(u, n)
  {
    KeyInFirsts(u, m, lists, n);
    forall r | 0 <= r < |u| && r < n
      ensures |m| > r && u[r] == m[r]
    {
      SameRank(u, m, lists, n, r);
    }
    var h := if |u| < n then |u| else n;
    if h > 0 {
      var last := u[h - 1];
      assert m[..h] == u[..h];
    }
    if |u| < n {
      NoMoreKeys(u, m);
    }
  }

  /** A list whose keys all occur in `u` is no longer than `u`. */
  lemma NoMoreKeys(u: seq<Entry>, m: seq<Entry>)
    requires Ascending(u) && Ascending(m)
    requires forall e :: e in m ==> HasKey(u, e.key)
    ensures |m| <= |u|
  {
    if m != [] {
      var last := |m| - 1;
      assert m[last] in m;
      var e :| e in u && e.key == m[last].key;
      var r :| 0 <= r < |u| && u[r] == e;
      forall i | 0 <= i <= last
        ensures HasKey(u, m[i].key)
      {
        assert m[i] in m;
      }
      RankLe(m, u, last, r);
    }
  }

  // --- The operation ---

  datatype MergeOp = ListOp(prefix: Key) | SearchOp(query: Key) {
    /** What the operation asks of every member. */
    function Asks(lower: Key -> Key): Query {
      match this
      case ListOp(prefix) => Query(prefix, None, lower)
      case SearchOp(query) => Query([], Some(lower(query)), lower)
    }
  }

  /** A member as the proxy meets it: its listing works, or it is skipped. */
  datatype Member = Reachable(shards: seq<seq<Entry>>) | Failing

  ghost predicate ValidMembers(members: seq<Member>, shardOf: Key -> nat) {
    forall i :: 0 <= i < |members| && members[i].Reachable? ==> Sharded(members[i].shards, shardOf)
  }

  /** The members' own listings, above the cursor; a failing member counts as empty. */
  function MemberLists(members: seq<Member>, q: Query, cursor: Option<Key>): (r: seq<seq<Entry>>)
    ensures |r| == |members|
  {
    seq(|members|, i requires 0 <= i < |members| =>
      if members[i].Failing? then [] else After(Filter(q, Whole(members[i].shards)), cursor))
  }

  lemma MemberListsAscend(members: seq<Member>, q: Query, cursor: Option<Key>, shardOf: Key -> nat)
    requires ValidMembers(members, shardOf)
    ensures Lists(MemberLists(members, q, cursor))
  {
    forall i | 0 <= i < |members|
      ensures Ascending(MemberLists(members, q, cursor)[i])
    {
      if members[i].Reachable? {
        ShardedIsApart(members[i].shards, shardOf);
        WholeAscending(members[i].shards);
        FilterAscending(q, Whole(members[i].shards));
        AfterMembers(Filter(q, Whole(members[i].shards)), cursor);
      }
    }
  }

  /** What the client asked of a path. */
  ghost predicate Fits(op: MergeOp, lower: Key -> Key, k: Key) {
    match op
    case ListOp(prefix) => prefix <= k
    case SearchOp(query) => exists at :: OccursAt(lower(k), lower(query), at)
  }

  ghost predicate HoldsEntry(shards: seq<seq<Entry>>, e: Entry) {
    exists i :: 0 <= i < |shards| && e in shards[i]
  }

  /** Member `i` is the first one that can be reached and has this path, which is one the client
      asked for, and `e` is its entry. */
  ghost predicate Serves(members: seq<Member>, op: MergeOp, lower: Key -> Key, e: Entry, i: nat) {
    && i < |members| && members[i].Reachable? && HoldsEntry(members[i].shards, e) && Fits(op, lower, e.key)
    && forall j, f :: 0 <= j < i && members[j].Reachable? && HoldsEntry(members[j].shards, f) ==> f.key != e.key
  }

  lemma MembersServe(members: seq<Member>, op: MergeOp, lower: Key -> Key, shardOf: Key -> nat)
    requires ValidMembers(members, shardOf)
    ensures var all := Union(MemberLists(members, op.Asks(lower), None));
            Ascending(all) && forall e :: e in all <==> exists i :: Serves(members, op, lower, e, i)
  {
    var q := op.Asks(lower);
    var lists := MemberLists(members, q, None);
    MemberListsAscend(members, q, None, shardOf);
    UnionIsFirstWins(lists, Union(lists));
    AsksFits(op, lower);
    forall i | 0 <= i < |members|
      ensures forall e :: e in lists[i] <==> members[i].Reachable? && HoldsEntry(members[i].shards, e) && Fits(op, lower, e.key)
    {
      MemberListHolds(members, op, lower, shardOf, i);
    }
    hide MemberLists, Fits, HoldsEntry, Union, Ascending;
    forall e
      ensures Wins(e, lists) <==> exists i :: Serves(members, op, lower, e, i)
    {
      if i: nat :| WinsAt(e, lists, i) {
        assert Serves(members, op, lower, e, i);
      }
      if i: nat :| Serves(members, op, lower, e, i) {
        assert WinsAt(e, lists, i);
      }
    }
  }

  lemma AsksFits(op: MergeOp, lower: Key -> Key)
    ensures forall k :: op.Asks(lower).Wants(k) <==> Fits(op, lower, k)
  {
    if op.SearchOp? {
      SearchWants(op.Asks(lower));
    }
  }

  lemma MemberListHolds(members: seq<Member>, op: MergeOp, lower: Key -> Key, shardOf: Key -> nat, i: nat)
    requires ValidMembers(members, shardOf) && i < |members|
    ensures forall e :: e in MemberLists(members, op.Asks(lower), None)[i] <==>
                        members[i].Reachable? && HoldsEntry(members[i].shards, e) && Fits(op, lower, e.key)
  {
    AsksFits(op, lower);
    if members[i].Reachable? {
      ShardedIsApart(members[i].shards, shardOf);
      ListingMembers(members[i].shards, op.Asks(lower));
    }
  }

  /** The page of a merged list, as the last lines of the merge cut it. */
  function CutPage(m: seq<Entry>, skip: nat, limit: nat): Page {
    Paginate(Take(Drop(m, skip), limit + 1), limit)
  }

  /** `paginated_merge`: one bounded page per member, merged in member order. */
  method PaginatedMerge(members: seq<Member>, op: MergeOp, cursor: Option<Key>, offset: nat, limit: nat,
                        utf8: Key -> bool, lower: Key -> Key, ghost shardOf: Key -> nat)
    returns (page: Page, ghost all: seq<Entry>)
    requires ValidMembers(members, shardOf)
    ensures Ascending(all) && forall e :: e in all <==> exists i :: Serves(members, op, lower, e, i)
    ensures cursor.Some? || offset == 0 ==> page == PageAt(all, cursor, 0, limit)
    ensures page == CutPage(Union(Firsts(MemberLists(members, op.Asks(lower), cursor), limit + 1)),
                            if cursor.Some? then 0 else offset, limit)
    ensures all == Union(MemberLists(members, op.Asks(lower), None))
  {
    hide Filter, Whole, From, Lt, Sharded, Wins, InsertAll, Union, Serves, Ascending;
    ghost var q := op.Asks(lower);
    ghost var firsts := Firsts(MemberLists(members, q, cursor), limit + 1);
    MemberListsAscend(members, q, None, shardOf);
    CutEveryMember(members, q, cursor);
    UnionPage(MemberLists(members, q, None), MemberLists(members, q, cursor), cursor, limit);
    MembersServe(members, op, lower, shardOf);
    all := Union(MemberLists(members, q, None));
    if members == [] {
      UnionOfNone(firsts);
      return Page([], None), all;
    }
    var m: seq<Entry> := [];
    UnionOfNone(firsts[..0]);
    for i := 0 to |members|
      invariant m == Union(firsts[..i])
    {
      var items: seq<Entry> := [];
      if members[i].Reachable? {
        items := MemberItems(members[i].shards, op, cursor, limit + 1, utf8, lower, shardOf);
      }
      assert items == firsts[i];
      m := MergeMember(m, items);
      UnionNext(firsts, i);
    }
    assert firsts[..|members|] == firsts;
    var skip := if cursor.Some? then 0 else offset;
    page := PaginateResults(Take(Drop(m, skip), limit + 1), limit);
  }

  lemma UnionOfNone(lists: seq<seq<Entry>>)
    requires lists == []
    ensures Union(lists) == []
  {
  }

  lemma UnionNext(lists: seq<seq<Entry>>, i: nat)
    requires i < |lists|
    ensures Union(lists[..i + 1]) == InsertAll(Union(lists[..i]), lists[i])
  {
    assert lists[..i + 1][..i] == lists[..i];
  }

  /** One member's answer to the operation. */
  method MemberItems(shards: seq<seq<Entry>>, op: MergeOp, cursor: Option<Key>, limit: nat,
                     utf8: Key -> bool, lower: Key -> Key, ghost shardOf: Key -> nat)
    returns (items: seq<Entry>)
    requires Sharded(shards, shardOf)
    ensures items == Take(After(Filter(op.Asks(lower), Whole(shards)), cursor), limit)
  {
    hide Filter, Whole, From, Sharded;
    var page;
    ghost var all;
    match op {
      case ListOp(prefix) =>
        page, all := ListArtifacts(shards, prefix, cursor, 0, limit, utf8, lower, shardOf);
      case SearchOp(query) =>
        page, all := SearchArtifacts(shards, query, cursor, 0, limit, utf8, lower, shardOf);
    }
    items := page.items;
  }

  /** The same page for the two unions that a merge over these lists has. */
  lemma UnionPage(lists: seq<seq<Entry>>, cut: seq<seq<Entry>>, cursor: Option<Key>, limit: nat)
    requires Lists(lists) && CutAt(lists, cut, cursor)
    ensures CutPage(Union(Firsts(cut, limit + 1)), 0, limit) == PageAt(Union(lists), cursor, 0, limit)
  {
    hide FirstWins, InsertAll, CutPage, CutAt;
    var firsts := Firsts(cut, limit + 1);
    CutsAscend(lists, cut, cursor);
    UnionIsFirstWins(lists, Union(lists));
    UnionIsFirstWins(firsts, Union(firsts));
    MergedPageIsUnionPage(lists, cut, cursor, limit, Union(lists), Union(firsts));
  }

  /** With a cursor or an offset of 0 the page and its cursor are those of the full
      first-member-wins union, although no member was asked for more than one page. */
  lemma ProxyPageExact(lists: seq<seq<Entry>>, u: seq<Entry>, m: seq<Entry>, limit: nat)
    requires Lists(lists) && FirstWins(u, lists) && FirstWins(m, Firsts(lists, limit + 1))
    ensures CutPage(m, 0, limit) == CutPage(u, 0, limit)
  {
    BoundedUnion(u, m, lists, limit + 1);
    assert Drop(m, 0) == m && Drop(u, 0) == u;
  }

  /** Every list cut at the cursor. */
  ghost predicate CutAt(lists: seq<seq<Entry>>, cut: seq<seq<Entry>>, cursor: Option<Key>) {
    |cut| == |lists| && forall i :: 0 <= i < |lists| ==> cut[i] == After(lists[i], cursor)
  }

  /** The cursor commutes with the union: cutting every member is cutting their union. */
  lemma UnionAfter(lists: seq<seq<Entry>>, u: seq<Entry>, cursor: Option<Key>, cut: seq<seq<Entry>>)
    requires Lists(lists) && FirstWins(u, lists) && CutAt(lists, cut, cursor)
    ensures FirstWins(After(u, cursor), cut)
  {
    AfterMembers(u, cursor);
    forall i | 0 <= i < |lists|
      ensures forall e :: e in cut[i] <==> e in lists[i] && (cursor.Some? ==> Lt(cursor.value, e.key))
    {
      AfterMembers(lists[i], cursor);
    }
    forall e
      ensures e in After(u, cursor) <==> Wins(e, cut)
    {
      if e in After(u, cursor) {
        var i: nat :| WinsAt(e, lists, i);
        assert WinsAt(e, cut, i);
      }
      if Wins(e, cut) {
        var i: nat :| WinsAt(e, cut, i);
        forall j | 0 <= j < i
          ensures HasKey(lists[j], e.key) <==> HasKey(cut[j], e.key)
        {
          assert forall f :: f in lists[j] && f.key == e.key ==> f in cut[j];
        }
        assert WinsAt(e, lists, i);
      }
    }
  }

  lemma CutsAscend(lists: seq<seq<Entry>>, cut: seq<seq<Entry>>, cursor: Option<Key>)
    requires Lists(lists) && CutAt(lists, cut, cursor)
    ensures Lists(cut)
  {
    forall i | 0 <= i < |cut|
      ensures Ascending(cut[i])
    {
      AfterMembers(lists[i], cursor);
    }
  }

  /** Put together: the page merged from the members' bounded pages is the page of one listing,
      the union of the members' whole lists, at the client's own cursor. */
  lemma MergedPageIsUnionPage(lists: seq<seq<Entry>>, cut: seq<seq<Entry>>, cursor: Option<Key>, limit: nat,
                              u: seq<Entry>, merged: seq<Entry>)
    requires Lists(lists) && CutAt(lists, cut, cursor)
    requires FirstWins(u, lists) && FirstWins(merged, Firsts(cut, limit + 1))
    ensures CutPage(merged, 0, limit) == PageAt(u, cursor, 0, limit)
  {
    hide From, Lt, Wins, CutPage;
    CutsAscend(lists, cut, cursor);
    UnionAfter(lists, u, cursor, cut);
    ProxyPageExact(cut, After(u, cursor), merged, limit);
    AfterPage(u, cursor, limit);
  }

  lemma CutEveryMember(members: seq<Member>, q: Query, cursor: Option<Key>)
    ensures CutAt(MemberLists(members, q, None), MemberLists(members, q, cursor), cursor)
  {
  }

  lemma AfterPage(u: seq<Entry>, cursor: Option<Key>, limit: nat)
    ensures CutPage(After(u, cursor), 0, limit) == PageAt(u, cursor, 0, limit)
  {
  }

  // --- Offsets ---

  ghost predicate Exact(lists: seq<seq<Entry>>, offset: nat, limit: nat) {
    forall u, m :: FirstWins(u, lists) && FirstWins(m, Firsts(lists, limit + 1))
                   ==> CutPage(m, offset, limit) == CutPage(u, offset, limit)
  }

  /** When no member has more than `limit + 1` matches, every offset is exact. */
  lemma SmallMembersExact(lists: seq<seq<Entry>>, offset: nat, limit: nat)
    requires Lists(lists) && forall i :: 0 <= i < |lists| ==> |lists[i]| <= limit + 1
    ensures Exact(lists, offset, limit)
  {
    var firsts := Firsts(lists, limit + 1);
    assert forall i :: 0 <= i < |lists| ==> firsts[i] == lists[i];
    assert firsts == lists;
    forall u, m | FirstWins(u, lists) && FirstWins(m, Firsts(lists, limit + 1))
      ensures CutPage(m, offset, limit) == CutPage(u, offset, limit)
    {
      AscendingUnique(u, m);
    }
  }

  function Ladder(n: nat): seq<Entry> {
    seq(n, i requires i >= 0 => Entry(seq(i, _ => 0), []))
  }

  lemma {:induction false} ZerosAscend(i: nat, j: nat)
    requires i < j
    ensures Lt(seq(i, _ => 0 as Byte), seq(j, _ => 0 as Byte))
  {
    if i > 0 {
      ZerosAscend(i - 1, j - 1);
      assert seq(i, _ => 0 as Byte)[1..] == seq(i - 1, _ => 0 as Byte);
      assert seq(j, _ => 0 as Byte)[1..] == seq(j - 1, _ => 0 as Byte);
    }
  }

  lemma LadderAscends(n: nat)
    ensures Ascending(Ladder(n))
  {
    forall i, j | 0 <= i < j < n
      ensures Lt(Ladder(n)[i].key, Ladder(n)[j].key)
    {
      ZerosAscend(i, j);
      assert Ladder(n)[i].key == seq(i, _ => 0 as Byte);
      assert Ladder(n)[j].key == seq(j, _ => 0 as Byte);
    }
  }

  /** A first page at a positive offset is too short as soon as one member holds enough:
      items past the member's bounded fetch are lost. */
  lemma OffsetLosesItems(offset: nat, limit: nat)
    requires offset > 0
    ensures Lists([Ladder(offset + limit + 2)])
    ensures !Exact([Ladder(offset + limit + 2)], offset, limit)
  {
    var full := Ladder(offset + limit + 2);
    var lists := [full];
    LadderAscends(|full|);
    var first := Take(full, limit + 1);
    Single(full);
    Single(first);
    assert Firsts(lists, limit + 1) == [first];
    assert |Take(Drop(first, offset), limit + 1)| < limit + 1;
    assert |Take(Drop(full, offset), limit + 1)| == limit + 1;
    assert CutPage(first, offset, limit).next == None;
    assert CutPage(full, offset, limit).next.Some?;
  }

  lemma Single(a: seq<Entry>)
    requires Ascending(a)
    ensures FirstWins(a, [a])
  {
    forall e
      ensures e in a <==> Wins(e, [a])
    {
      if e in a {
        assert WinsAt(e, [a], 0);
      }
    }
  }

  /** For every limit: the first page is right for all member contents exactly when the
      offset is 0. */
  lemma OffsetExactIff(offset: nat, limit: nat)
    ensures (forall lists :: Lists(lists) ==> Exact(lists, offset, limit)) <==> offset == 0
  {
    if offset == 0 {
      forall lists | Lists(lists)
        ensures Exact(lists, offset, limit)
      {
        forall u, m | FirstWins(u, lists) && FirstWins(m, Firsts(lists, limit + 1))
          ensures CutPage(m, offset, limit) == CutPage(u, offset, limit)
        {
          ProxyPageExact(lists, u, m, limit);
        }
      }
    } else {
      OffsetLosesItems(offset, limit);
    }
  }
}
