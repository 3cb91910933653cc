/** Whole-repository operations that run partition by partition in batches: cloning a repository
    and draining one that is being deleted. */
module Partitions {
  import opened Lex
  import opened Scan
  import opened Paths
  import opened Tables
  import opened Sums
  import opened Requests

  datatype Table = Artifacts | DirEntries

  datatype Part = Part(table: Table, pk: Key)

  type Store = map<Part, seq<Entry>>

  /** A repository's configuration; `rest` stands for the fields a clone keeps as they are. */
  datatype Config = Config(name: Key, createdAt: nat, deleting: bool, rest: Key)

  function Content(tables: Store, p: Part): seq<Entry> {
    if p in tables then tables[p] else []
  }

  function RepoPart(table: Table, repo: Key, shard: nat): Part {
    Part(table, ShardPk(repo, shard))
  }

  predicate IsShard(i: nat) {
    i < NUM_SHARDS
  }

  function AllShards(): set<nat> {
    set i: nat | i < NUM_SHARDS && IsShard(i)
  }

  ghost predicate Owned(p: Part, repo: Key) {
    exists i: nat :: i < NUM_SHARDS && p == RepoPart(p.table, repo, i)
  }

  /** What the rest of the system asks a repository: the record at a path. */
  function GetArtifact(tables: Store, shardOf: Key -> nat, repo: Key, path: Path): Option<Value> {
    var key := Normalize(path);
    Lookup(Content(tables, RepoPart(Artifacts, repo, shardOf(key))), key)
  }

  /** It is the value of the entry under the normalised path, in the shard that path hashes to. */
  lemma AnswerIsEntry(tables: Store, shardOf: Key -> nat, repo: Key, path: Path, v: Value)
    requires Sorted(tables)
    ensures var key := Normalize(path);
            var p := Part(Artifacts, ShardPk(repo, shardOf(key)));
            GetArtifact(tables, shardOf, repo, path) == Some(v) <==> p in tables && Entry(key, v) in tables[p]
  {
    hide Normalize, ShardPk, Lookup;
    var key := Normalize(path);
    LookupIn(Content(tables, RepoPart(Artifacts, repo, shardOf(key))), key);
  }

  ghost predicate Sorted(tables: Store) {
    forall p :: p in tables ==> Ascending(tables[p])
  }

  /** Nothing outside one repository differs. */
  ghost predicate OnlyTouches(repo: Key, before: Store, after: Store) {
    forall p :: !Owned(p, repo) ==> Content(after, p) == Content(before, p)
  }

  /** One partition alone may differ. */
  ghost predicate Elsewhere(dst: Part, before: Store, after: Store) {
    forall p :: p != dst ==> Content(after, p) == Content(before, p)
  }

  lemma PutElsewhere(tables: Store, dst: Part, content: seq<Entry>, src: Part)
    requires src != dst
    ensures Elsewhere(dst, tables, tables) && Elsewhere(dst, tables, tables[dst := content])
    ensures Content(tables[dst := content], dst) == content
    ensures Content(tables[dst := content], src) == Content(tables, src)
  {
  }

  /** No other repository's partition is owned, so none of its answers can change. */
  lemma OthersUntouched(repo: Key, other: Key, before: Store, after: Store, shardOf: Key -> nat, path: Path)
    requires OnlyTouches(repo, before, after) && other != repo
    ensures GetArtifact(after, shardOf, other, path) == GetArtifact(before, shardOf, other, path)
  {
    var p := RepoPart(Artifacts, other, shardOf(Normalize(path)));
    if Owned(p, repo) {
      var i: nat :| i < NUM_SHARDS && p == RepoPart(p.table, repo, i);
      ShardPkInjective(repo, i, other, shardOf(Normalize(path)));
    }
  }

  /** `dst` now answers as `src`, and where `src` is silent as it did before. */
  ghost predicate Overlaid(src: seq<Entry>, before: seq<Entry>, dst: seq<Entry>) {
    forall k :: Lookup(dst, k) == if Lookup(src, k).Some? then Lookup(src, k) else Lookup(before, k)
  }

  ghost predicate Copied(t: Table, source: Key, target: Key, i: nat, before: Store, after: Store) {
    Overlaid(Content(before, RepoPart(t, source, i)), Content(before, RepoPart(t, target, i)),
             Content(after, RepoPart(t, target, i)))
  }

  ghost predicate TableCopied(t: Table, source: Key, target: Key, before: Store, after: Store) {
    forall i: nat :: i < NUM_SHARDS ==> Copied(t, source, target, i, before, after)
  }

  /** The clone answers every path as the source does, exactly when no leftover of an earlier
      repository of that name holds a path the source lacks. */
  lemma CloneAnswersIff(source: Key, target: Key, before: Store, after: Store, shardOf: Key -> nat)
    requires forall k :: shardOf(k) < NUM_SHARDS
    requires TableCopied(Artifacts, source, target, before, after)
    ensures (forall path :: GetArtifact(after, shardOf, target, path) == GetArtifact(before, shardOf, source, path))
       <==> (forall path :: GetArtifact(before, shardOf, source, path).None?
                            ==> GetArtifact(before, shardOf, target, path).None?)
  {
    forall path: Path
      ensures GetArtifact(after, shardOf, target, path)
           == if GetArtifact(before, shardOf, source, path).Some?
              then GetArtifact(before, shardOf, source, path)
              else GetArtifact(before, shardOf, target, path)
    {
      assert Copied(Artifacts, source, target, shardOf(Normalize(path)), before, after);
    }
  }

  /** The sizes of a table's partitions, without those a cancellation left out. */
  function SizeBut(t: Table, repo: Key, skipped: set<nat>, tables: Store): map<nat, nat> {
    map i: nat | i < NUM_SHARDS && i !in skipped :: |Content(tables, RepoPart(t, repo, i))|
  }

  /** A cancellation token: how many checks it answers before it has fired, if it fires at all. */
  type Token = Option<nat>

  predicate IsCancelled(token: Token, check: nat) {
    token.Some? && token.value <= check
  }

  /** How many of these checks find the token fired. */
  function Fired(token: Token, from: nat, to: nat): nat
    requires from <= to
  {
    if !token.Some? || to <= token.value then 0
    else if token.value <= from then to - from
    else to - token.value
  }

  /** Every partition is copied but the skipped ones, which are as they were. */
  ghost predicate CopiedBut(t: Table, source: Key, target: Key, skipped: set<nat>, before: Store, after: Store) {
    forall i: nat :: i < NUM_SHARDS ==>
      if i in skipped then Content(after, RepoPart(t, target, i)) == Content(before, RepoPart(t, target, i))
      else Copied(t, source, target, i, before, after)
  }

  /** The destination answers already for everything the source has. */
  ghost predicate Answered(src: seq<Entry>, dst: seq<Entry>) {
    forall k :: Lookup(src, k).Some? ==> Lookup(dst, k) == Lookup(src, k)
  }

  /** After a completed clone the table is fully copied exactly when each skipped partition had
      nothing to copy. */
  lemma CopiedButIff(t: Table, source: Key, target: Key, skipped: set<nat>, before: Store, after: Store)
    requires CopiedBut(t, source, target, skipped, before, after) && skipped <= AllShards()
    ensures TableCopied(t, source, target, before, after)
       <==> forall i :: i in skipped ==> Answered(Content(before, RepoPart(t, source, i)), Content(before, RepoPart(t, target, i)))
  {
    hide Content, ShardPk;
    forall i | i in skipped
      ensures Copied(t, source, target, i, before, after)
         <==> Answered(Content(before, RepoPart(t, source, i)), Content(before, RepoPart(t, target, i)))
    {
    }
    forall i: nat | i < NUM_SHARDS && i !in skipped
      ensures Copied(t, source, target, i, before, after)
    {
    }
    forall i | i in skipped
      ensures i < NUM_SHARDS
    {
    }
  }

  function Count(i: nat, n: nat): int {
    n
  }

  datatype Outcome = Conflict | Cancelled | Completed(artifacts: int, entries: int)

  class Kv {
    var tables: Store
    var repos: map<Key, Config>

    constructor ()
      ensures tables == map[] && repos == map[]
    {
      tables, repos := map[], map[];
    }

    method PutBatch(p: Part, items: seq<Entry>)
      requires Sorted(tables)
      modifies this`tables
      ensures Sorted(tables) && tables == old(tables)[p := PutAll(Content(old(tables), p), items)]
    {
      PutAllAscending(Content(tables, p), items);
      tables := tables[p := PutAll(Content(tables, p), items)];
    }

    /** Deletes a batch just scanned off the front of the partition. */
    method DeleteBatch(p: Part, items: seq<Entry>)
      requires Sorted(tables) && items <= Content(tables, p)
      modifies this`tables
      ensures Sorted(tables) && tables == old(tables)[p := Content(old(tables), p)[|items|..]]
    {
      var part := Content(tables, p);
      var left := part;
      var i := 0;
      while i < |items|
        invariant i <= |items| <= |part| && left == part[i..] && tables == old(tables)
      {
        assert items[i] == part[i];
        RemoveHead(left);
        left := Remove(left, items[i].key);
        i := i + 1;
      }
      tables := tables[p := left];
    }

    /** One batch: scan from the cursor, put under the other partition key, step past the last. */
    method CopyBatch(src: Part, dst: Part, cursor: Option<Key>,
                     ghost whole: seq<Entry>, ghost before: seq<Entry>, ghost copied: seq<Entry>)
      returns (n: nat, next: Option<Key>, done: bool, ghost more: seq<Entry>)
      requires Sorted(tables) && src != dst
      requires Progress(whole, before, copied, cursor, Content(tables, src), Content(tables, dst))
      modifies this`tables
      ensures Sorted(tables) && Elsewhere(dst, old(tables), tables) && n == |more| - |copied|
      ensures Content(tables, src) == whole && Content(tables, dst) == PutAll(before, more)
      ensures done ==> more == whole
      ensures !done ==> Resumes(whole, more, cursor, next)
    {
      hide From, Below, PutAll, Elsewhere, Content;
      var items;
      items, done := ScanRange(Content(tables, src), StartOf(cursor), None, SCAN_BATCH_SIZE);
      CopyStep(whole, before, copied, cursor, items, done);
      n, next, more := |items|, None, copied + items;
      PutElsewhere(tables, dst, PutAll(Content(tables, dst), items), src);
      if items == [] {
        done := true;
        return;
      }
      PutBatch(dst, items);
      if !done {
        next := Some(items[|items| - 1].key + [0]);
      }
    }

    /** Copies one partition in batches, each resumed just above the last key copied. */
    method CopyPartition(src: Part, dst: Part) returns (n: nat)
      requires Sorted(tables) && src != dst
      modifies this`tables
      ensures Sorted(tables) && n == |Content(old(tables), src)|
      ensures Elsewhere(dst, old(tables), tables)
      ensures Overlaid(Content(old(tables), src), Content(old(tables), dst), Content(tables, dst))
    {
      hide Content, Elsewhere, Overlaid, PutAll, From, Ascending;
      ghost var start := tables;
      ghost var whole, before := Content(tables, src), Content(tables, dst);
      ghost var copied: seq<Entry> := [];
      var cursor: Option<Key> := None;
      var done := false;
      n := 0;
      ContentAscends(start, src);
      ContentAscends(start, dst);
      NothingCopied(whole, before);
      SameElsewhere(dst, start);
      while !done
        invariant Sorted(tables) && Elsewhere(dst, start, tables) && n == |copied|
        invariant Content(tables, src) == whole && Content(tables, dst) == PutAll(before, copied)
        invariant if done then copied == whole else whole == copied + From(whole, StartOf(cursor))
        decreases !done, |From(whole, StartOf(cursor))|
      {
        var count;
        ghost var more, now := [], tables;
        count, cursor, done, more := CopyBatch(src, dst, cursor, whole, before, copied);
        ElsewhereOn(dst, start, now, tables);
        n, copied := n + count, more;
      }
      CopyEnd(before, whole);
    }

    /** One shard's turn. */
    method TakeTurn(t: Table, source: Key, target: Key, token: Token, checks: nat, check: nat, total: int,
                    shard: nat, ghost todo: set<nat>, ghost at: Standing, ghost before: Store)
      returns (more: int, ghost next: Standing)
      requires Sorted(tables) && source != target && shard in todo
      requires Stands(t, source, target, token, checks, check, todo, total, at, before, tables)
      modifies this`tables
      ensures Sorted(tables)
      ensures Stands(t, source, target, token, checks, check + 1, todo - {shard}, more, next, before, tables)
    {
      hide Content, Sum, ShardPk, Stands, Sorted, Overlaid, Elsewhere;
      if IsCancelled(token, check) {
        next := StandsSkipped(t, source, target, token, checks, check, todo, total, at, before, tables, shard);
        return total, next;
      }
      ghost var now := tables;
      RepoPartsApart(t, source, target, shard);
      var n := CopyPartition(RepoPart(t, source, shard), RepoPart(t, target, shard));
      next := StandsCopied(t, source, target, token, checks, check, todo, total, at, before, now, tables, shard, n);
      more := total + n;
    }

    /** Copies the partitions of one table, in any order, asking the token before each of them and
        skipping those for which it has fired. */
    method CopyTable(t: Table, source: Key, target: Key, token: Token, checks: nat)
      returns (total: int, ghost skipped: set<nat>)
      requires Sorted(tables) && source != target
      modifies this`tables
      ensures Sorted(tables) && OnlyTouches(target, old(tables), tables)
      ensures OtherTableSame(t, old(tables), tables)
      ensures skipped <= AllShards() && |skipped| == Fired(token, checks, checks + NUM_SHARDS)
      ensures CopiedBut(t, source, target, skipped, old(tables), tables)
      ensures total == Sum(SizeBut(t, source, skipped, old(tables)), Count)
    {
      hide Stands, Sorted, OnlyTouches, OtherTableSame, AllShards, CopiedBut, SizeBut, Fired, Sum;
      ghost var before := tables;
      var todo := AllShards();
      var check := checks;
      total := 0;
      ghost var at := Standing(map[], {});
      StandsFirst(t, source, target, token, checks, before);
      while todo != {}
        invariant Sorted(tables) && Stands(t, source, target, token, checks, check, todo, total, at, before, tables)
        decreases |todo|
      {
        var shard: nat :| shard in todo;
        total, at := TakeTurn(t, source, target, token, checks, check, total, shard, todo, at, before);
        todo, check := todo - {shard}, check + 1;
      }
      StandsLast(t, source, target, token, checks, check, total, at, before, tables);
      skipped := at.skipped;
    }

    /** Reserves the name, then copies the artifacts, then the directory entries. The token is asked
        before each of the 256 artifact partitions, once after them, and before each of the 256
        directory partitions, but not again: firing by the 257th check fails the clone; firing later
        is not reported, and each check it meets leaves one directory partition out. */
    method CloneRepo(source: Config, newName: Key, now: nat, token: Token)
      returns (outcome: Outcome, ghost skipped: set<nat>)
      requires Sorted(tables) && source.name in repos
      modifies this
      ensures Sorted(tables) && OnlyTouches(newName, old(tables), tables)
      ensures outcome.Conflict? <==> newName in old(repos)
      ensures outcome.Conflict? ==> tables == old(tables) && repos == old(repos)
      ensures !outcome.Conflict? ==>
                repos == old(repos)[newName := source.(name := newName, createdAt := now, deleting := false)]
      ensures outcome.Cancelled? <==> newName !in old(repos) && IsCancelled(token, NUM_SHARDS)
      ensures outcome.Completed? ==>
                && TableCopied(Artifacts, source.name, newName, old(tables), tables)
                && outcome.artifacts == Sum(SizeBut(Artifacts, source.name, {}, old(tables)), Count)
      ensures outcome.Completed? ==>
                && skipped <= AllShards() && |skipped| == Fired(token, NUM_SHARDS + 1, 2 * NUM_SHARDS + 1)
                && CopiedBut(DirEntries, source.name, newName, skipped, old(tables), tables)
                && outcome.entries == Sum(SizeBut(DirEntries, source.name, skipped, old(tables)), Count)
    {
      hide TableCopied, CopiedBut, SizeBut, Content, OnlyTouches, OtherTableSame, AllShards;
      UntouchedAtFirst(newName, tables);
      skipped := {};
      if newName in repos {
        return Conflict, {};
      }
      ghost var before := tables;
      repos := repos[newName := source.(name := newName, createdAt := now, deleting := false)];
      var artifacts, entries;
      artifacts, skipped := CopyTable(Artifacts, source.name, newName, token, 0);
      if IsCancelled(token, NUM_SHARDS) {
        return Cancelled, skipped;
      }
      assert skipped == {};
      ghost var middle := tables;
      entries, skipped := CopyTable(DirEntries, source.name, newName, token, NUM_SHARDS + 1);
      NoneLeftOut(Artifacts, source.name, newName, before, middle);
      BothTables(source.name, newName, skipped, before, middle, tables);
      outcome := Completed(artifacts, entries);
    }

    /** A token that fires right after the artifacts: the clone completes without one directory
        entry of its source. */
    method CancelAfterArtifacts(source: Config, newName: Key, now: nat) returns (outcome: Outcome)
      requires Sorted(tables) && source.name in repos && newName !in repos
      modifies this
      ensures outcome.Completed? && outcome.entries == 0
      ensures forall i: nat :: i < NUM_SHARDS ==>
                Content(tables, RepoPart(DirEntries, newName, i)) == Content(old(tables), RepoPart(DirEntries, newName, i))
    {
      hide TableCopied, Content, OnlyTouches;
      ghost var skipped;
      outcome, skipped := CloneRepo(source, newName, now, Some(NUM_SHARDS + 1));
      AllSkipped(skipped);
      ghost var none := SizeBut(DirEntries, source.name, skipped, old(tables));
      assert none == map[];
    }

    /** Deletes one partition batch by batch, from request `first` on, until a scan comes back empty
        or a request fails. A deletion that fails may have removed some of its batch. */
    method DrainPartition(p: Part, outage: nat -> bool, first: nat) returns (finished: bool, next: nat)
      requires Sorted(tables)
      modifies this`tables
      ensures Sorted(tables) && Elsewhere(p, old(tables), tables)
      ensures Ran(outage, first, DrainRequests(|Content(old(tables), p)|), finished, next)
      ensures finished ==> Content(tables, p) == []
    {
      hide Sorted, Elsewhere, Content, From, Below;
      next := first;
      SameElsewhere(p, tables);
      while true
        invariant Sorted(tables) && Elsewhere(p, old(tables), tables)
        invariant next >= first && Quiet(outage, first, next)
        invariant next + DrainRequests(|Content(tables, p)|) == first + DrainRequests(|Content(old(tables), p)|)
        decreases |Content(tables, p)|
      {
        next := next + 1;
        if outage(next - 1) {
          return false, next;
        }
        var part := Content(tables, p);
        var items, done := ScanRange(part, [], None, SCAN_BATCH_SIZE);
        WholeScan(part);
        if items == [] {
          return true, next;
        }
        next := next + 1;
        if outage(next - 1) {
          var gone: nat :| gone <= |items|;
          ChangedElsewhere(p, old(tables), tables, part[gone..]);
          DeleteBatch(p, items[..gone]);
          return false, next;
        }
        ChangedElsewhere(p, old(tables), tables, part[|items|..]);
        DeleteBatch(p, items);
      }
    }

    method DrainTable(t: Table, repo: Key, outage: nat -> bool, first: nat) returns (finished: bool, next: nat)
      requires Sorted(tables)
      modifies this`tables
      ensures Sorted(tables) && OnlyTouches(repo, old(tables), tables)
      ensures OtherTableSame(t, old(tables), tables)
      ensures Ran(outage, first, DrainCost(t, repo, old(tables)), finished, next)
      ensures finished ==> TableEmpty(t, repo, tables)
    {
      hide Content, ShardPk, DrainedSoFar, Sorted, OnlyTouches, OtherTableSame, TableEmpty, DrainCost, Ran, CostSoFar;
      ghost var before := tables;
      var todo := AllShards();
      ghost var drained: set<nat> := {};
      finished, next := true, first;
      DrainBegins(t, repo, before, outage, first);
      while todo != {}
        invariant Sorted(tables) && AllShards() == todo + drained && todo !! drained
        invariant DrainedSoFar(t, repo, drained, before, tables)
        invariant Ran(outage, first, CostSoFar(t, repo, drained, before), true, next)
        decreases |todo|
      {
        var shard: nat :| shard in todo;
        todo := todo - {shard};
        ghost var now, mid := tables, next;
        finished, next := DrainPartition(RepoPart(t, repo, shard), outage, next);
        DrainNext(t, repo, drained, shard, before, now, tables);
        RanNext(t, repo, drained, shard, before, now, outage, first, mid, finished, next);
        if !finished {
          return;
        }
        drained := drained + {shard};
      }
      assert todo == {} && drained == AllShards();
      DrainEnds(t, repo, before, tables);
      finished := true;
    }

    /** Empties every partition of a repository and only then forgets the repository itself, so
        that an interrupted drain is taken up again. It finishes exactly when none of the requests
        it has to make fails: two for each full or partial batch, one empty scan for each of the
        512 partitions, and the last. */
    method DrainDeletingRepo(name: Key, outage: nat -> bool, first: nat) returns (finished: bool, next: nat)
      requires Sorted(tables)
      modifies this
      ensures Sorted(tables) && OnlyTouches(name, old(tables), tables)
      ensures Ran(outage, first, DrainCost(Artifacts, name, old(tables)) + DrainCost(DirEntries, name, old(tables)) + 1,
                  finished, next)
      ensures repos == if finished then old(repos) - {name} else old(repos)
      ensures finished ==> TableEmpty(Artifacts, name, tables) && TableEmpty(DirEntries, name, tables)
    {
      hide Content, ShardPk, Sorted, Ran, DrainCost, OnlyTouches, OtherTableSame, TableEmpty;
      ghost var before := tables;
      finished, next := DrainTable(Artifacts, name, outage, first);
      ghost var middle, mid := tables, next;
      ghost var first256, last256 := DrainCost(Artifacts, name, before), DrainCost(DirEntries, name, before);
      SameCost(DirEntries, name, before, middle);
      if !finished {
        RanShort(outage, first, first256, first256 + last256 + 1, next);
        return;
      }
      finished, next := DrainTable(DirEntries, name, outage, next);
      BothDrained(name, before, middle, tables);
      RanOn(outage, first, first256, mid, last256, finished, next);
      if !finished {
        RanShort(outage, first, first256 + last256, first256 + last256 + 1, next);
        return;
      }
      OneRequest(outage, next);
      RanOn(outage, first, first256 + last256, next, 1, !outage(next), next + 1);
      finished, next := !outage(next), next + 1;
      if finished {
        repos := repos - {name};
      }
    }

    /** The cleanup worker comes back to the repository at every tick. Once requests no longer fail,
        it is gone, whatever failed before. */
    method DrainUntilGone(name: Key, outage: nat -> bool, ghost quiet: nat)
      requires Sorted(tables) && name in repos
      requires forall r :: r >= quiet ==> !outage(r)
      modifies this
      ensures Sorted(tables) && OnlyTouches(name, old(tables), tables)
      ensures repos == old(repos) - {name}
      ensures TableEmpty(Artifacts, name, tables) && TableEmpty(DirEntries, name, tables)
    {
      hide TableEmpty, Sorted, OnlyTouches, DrainCost;
      ghost var before := tables;
      var finished, next := false, 0;
      UntouchedAtFirst(name, tables);
      while !finished
        invariant Sorted(tables) && OnlyTouches(name, before, tables)
        invariant repos == if finished then old(repos) - {name} else old(repos)
        invariant finished ==> TableEmpty(Artifacts, name, tables) && TableEmpty(DirEntries, name, tables)
        decreases !finished, quiet - next
      {
        ghost var now := tables;
        finished, next := DrainDeletingRepo(name, outage, next);
        TouchesOn(name, before, now, tables);
      }
    }
  }

  // --- Proofs about sets of partitions ---

  /** Only partitions of one table of one repository, at the given shards, may differ. */
  ghost predicate Confined(t: Table, repo: Key, shards: set<nat>, before: Store, after: Store) {
    forall p :: (forall i :: i in shards ==> p != RepoPart(t, repo, i)) ==> Content(after, p) == Content(before, p)
  }

  ghost predicate OtherTableSame(t: Table, before: Store, after: Store) {
    forall p: Part :: p.table != t ==> Content(after, p) == Content(before, p)
  }

  /** The shards in `sizes` are copied, with those sizes, and nothing else is touched. */
  ghost predicate CopiedSoFar(t: Table, source: Key, target: Key, sizes: map<nat, nat>, before: Store, now: Store) {
    && Confined(t, target, sizes.Keys, before, now)
    && forall i :: i in sizes ==>
                     && i < NUM_SHARDS && Copied(t, source, target, i, before, now)
                     && sizes[i] == |Content(before, RepoPart(t, source, i))|
  }

  lemma CopyBegins(t: Table, source: Key, target: Key, tables: Store)
    ensures CopiedSoFar(t, source, target, map[], tables, tables)
    ensures Sum<nat, nat>(map[], Count) == 0
  {
  }

  lemma CopyEnds(t: Table, source: Key, target: Key, sizes: map<nat, nat>, skipped: set<nat>,
                 before: Store, after: Store)
    requires CopiedSoFar(t, source, target, sizes, before, after)
    requires AllShards() == sizes.Keys + skipped && sizes.Keys !! skipped
    ensures OnlyTouches(target, before, after) && OtherTableSame(t, before, after)
    ensures CopiedBut(t, source, target, skipped, before, after) && sizes == SizeBut(t, source, skipped, before)
  {
    hide Content, ShardPk, Copied;
    forall i: nat | i < NUM_SHARDS
      ensures i in sizes <==> i !in skipped
      ensures i in skipped ==> Content(after, RepoPart(t, target, i)) == Content(before, RepoPart(t, target, i))
    {
      if i in skipped {
        forall j | j in sizes
          ensures RepoPart(t, target, i) != RepoPart(t, target, j)
        {
          ShardsApart(t, target, i, j);
        }
      }
    }
  }

  /** Where the loop over the shards stands: each is still to do, copied, or skipped by a check
      that found the token fired. */
  ghost predicate Turns(token: Token, checks: nat, check: nat, todo: set<nat>, copied: set<nat>, skipped: set<nat>) {
    && (forall i: nat :: i in todo || i in copied || i in skipped <==> IsShard(i))
    && (forall i :: i in todo ==> i !in copied && i !in skipped)
    && (forall i :: i in copied ==> i !in skipped)
    && checks <= check == checks + NUM_SHARDS - |todo| && |skipped| == Fired(token, checks, check)
  }

  lemma FirstTurn(token: Token, checks: nat)
    ensures Turns(token, checks, checks, AllShards(), {}, {})
  {
    ShardCount();
    assert forall i: nat :: i in AllShards() <==> IsShard(i);
  }

  lemma SkippedTurn(token: Token, checks: nat, check: nat, todo: set<nat>, copied: set<nat>, skipped: set<nat>, shard: nat)
    requires Turns(token, checks, check, todo, copied, skipped) && shard in todo && IsCancelled(token, check)
    ensures Turns(token, checks, check + 1, todo - {shard}, copied, skipped + {shard})
  {
    assert |todo - {shard}| == |todo| - 1 && |skipped + {shard}| == |skipped| + 1;
  }

  lemma CopiedTurn(token: Token, checks: nat, check: nat, todo: set<nat>, copied: set<nat>, skipped: set<nat>, shard: nat)
    requires Turns(token, checks, check, todo, copied, skipped) && shard in todo && !IsCancelled(token, check)
    ensures shard < NUM_SHARDS && shard !in copied
    ensures Turns(token, checks, check + 1, todo - {shard}, copied + {shard}, skipped)
  {
    assert IsShard(shard);
    assert |todo - {shard}| == |todo| - 1;
  }

  lemma LastTurn(token: Token, checks: nat, check: nat, copied: set<nat>, skipped: set<nat>)
    requires Turns(token, checks, check, {}, copied, skipped)
    ensures AllShards() == copied + skipped && copied !! skipped
    ensures |skipped| == Fired(token, checks, checks + NUM_SHARDS)
  {
    assert forall i: nat :: i in AllShards() <==> IsShard(i);
  }

  /** The shards copied so far with their sizes, and those skipped. */
  datatype Standing = Standing(sizes: map<nat, nat>, skipped: set<nat>)

  ghost predicate Stands(t: Table, source: Key, target: Key, token: Token, checks: nat, check: nat, todo: set<nat>,
                         total: int, at: Standing, before: Store, now: Store) {
    && Turns(token, checks, check, todo, at.sizes.Keys, at.skipped)
    && CopiedSoFar(t, source, target, at.sizes, before, now) && total == Sum(at.sizes, Count)
  }

  lemma StandsFirst(t: Table, source: Key, target: Key, token: Token, checks: nat, tables: Store)
    ensures Stands(t, source, target, token, checks, checks, AllShards(), 0, Standing(map[], {}), tables, tables)
  {
    hide Turns, CopiedSoFar;
    FirstTurn(token, checks);
    CopyBegins(t, source, target, tables);
    assert Standing(map[], {}).sizes.Keys == {};
  }

  lemma StandsSkipped(t: Table, source: Key, target: Key, token: Token, checks: nat, check: nat, todo: set<nat>,
                      total: int, at: Standing, before: Store, now: Store, shard: nat) returns (next: Standing)
    requires Stands(t, source, target, token, checks, check, todo, total, at, before, now)
    requires shard in todo && IsCancelled(token, check)
    ensures Stands(t, source, target, token, checks, check + 1, todo - {shard}, total, next, before, now)
  {
    hide Turns, CopiedSoFar, Sum;
    SkippedTurn(token, checks, check, todo, at.sizes.Keys, at.skipped, shard);
    next := Standing(at.sizes, at.skipped + {shard});
  }

  lemma StandsCopied(t: Table, source: Key, target: Key, token: Token, checks: nat, check: nat, todo: set<nat>,
                     total: int, at: Standing, before: Store, now: Store, after: Store, shard: nat, n: nat)
    returns (next: Standing)
    requires Stands(t, source, target, token, checks, check, todo, total, at, before, now)
    requires source != target && shard in todo && !IsCancelled(token, check)
    requires Elsewhere(RepoPart(t, target, shard), now, after)
    requires var src, dst := RepoPart(t, source, shard), RepoPart(t, target, shard);
             n == |Content(now, src)| && Overlaid(Content(now, src), Content(now, dst), Content(after, dst))
    ensures Stands(t, source, target, token, checks, check + 1, todo - {shard}, total + n, next, before, after)
  {
    hide Turns, CopiedSoFar, Sum, Elsewhere, Overlaid, Content, ShardPk;
    CopiedTurn(token, checks, check, todo, at.sizes.Keys, at.skipped, shard);
    CopiedNext(t, source, target, at.sizes, shard, before, now, after);
    SumPut(at.sizes, Count, shard, n);
    next := Standing(at.sizes[shard := n], at.skipped);
    assert next.sizes.Keys == at.sizes.Keys + {shard};
  }

  lemma StandsLast(t: Table, source: Key, target: Key, token: Token, checks: nat, check: nat, total: int,
                   at: Standing, before: Store, after: Store)
    requires Stands(t, source, target, token, checks, check, {}, total, at, before, after)
    ensures OnlyTouches(target, before, after) && OtherTableSame(t, before, after)
    ensures at.skipped <= AllShards() && |at.skipped| == Fired(token, checks, checks + NUM_SHARDS)
    ensures CopiedBut(t, source, target, at.skipped, before, after)
    ensures total == Sum(SizeBut(t, source, at.skipped, before), Count)
  {
    hide Turns, CopiedSoFar, AllShards, Fired, OnlyTouches, OtherTableSame, CopiedBut, SizeBut;
    LastTurn(token, checks, check, at.sizes.Keys, at.skipped);
    CopyEnds(t, source, target, at.sizes, at.skipped, before, after);
  }

  lemma ShardCount()
    ensures |AllShards()| == NUM_SHARDS
  {
    CountBelow(NUM_SHARDS);
  }

  lemma {:induction false} CountBelow(n: nat)
    requires n <= NUM_SHARDS
    ensures |set i: nat | i < n && IsShard(i)| == n
  {
    if n > 0 {
      CountBelow(n - 1);
      assert IsShard(n - 1);
      assert (set i: nat | i < n && IsShard(i)) == (set i: nat | i < n - 1 && IsShard(i)) + {n - 1};
    }
  }

  lemma {:induction false} SameSize(a: set<nat>, b: set<nat>)
    requires a <= b && |a| == |b|
    ensures a == b
  {
    if a != {} {
      var x :| x in a;
      SameSize(a - {x}, b - {x});
    }
  }

  lemma AllSkipped(skipped: set<nat>)
    requires skipped <= AllShards() && |skipped| == NUM_SHARDS
    ensures forall i: nat :: i < NUM_SHARDS ==> i in skipped
  {
    ShardCount();
    SameSize(skipped, AllShards());
    forall i: nat | i < NUM_SHARDS
      ensures i in skipped
    {
    }
  }

  lemma NoneLeftOut(t: Table, source: Key, target: Key, before: Store, after: Store)
    requires CopiedBut(t, source, target, {}, before, after)
    ensures TableCopied(t, source, target, before, after)
  {
    hide Copied;
  }

  lemma UntouchedAtFirst(repo: Key, tables: Store)
    ensures OnlyTouches(repo, tables, tables)
  {
  }

  /** Copying the second table neither changes the first nor reads anything the first changed. */
  lemma BothTables(source: Key, target: Key, skipped: set<nat>, before: Store, middle: Store, after: Store)
    requires OnlyTouches(target, before, middle) && OtherTableSame(Artifacts, before, middle)
    requires OnlyTouches(target, middle, after) && OtherTableSame(DirEntries, middle, after)
    requires TableCopied(Artifacts, source, target, before, middle)
    requires CopiedBut(DirEntries, source, target, skipped, middle, after)
    ensures OnlyTouches(target, before, after)
    ensures TableCopied(Artifacts, source, target, before, after)
    ensures CopiedBut(DirEntries, source, target, skipped, before, after)
    ensures SizeBut(DirEntries, source, skipped, middle) == SizeBut(DirEntries, source, skipped, before)
  {
    hide Overlaid, ShardPk, Content;
    forall i: nat | i < NUM_SHARDS
      ensures Copied(Artifacts, source, target, i, before, after)
    {
      assert Copied(Artifacts, source, target, i, before, middle);
    }
    forall i: nat | i < NUM_SHARDS && i !in skipped
      ensures Copied(DirEntries, source, target, i, before, after)
    {
      assert Copied(DirEntries, source, target, i, middle, after);
    }
  }

  // --- Draining ---

  ghost predicate TableEmpty(t: Table, repo: Key, tables: Store) {
    forall i: nat :: i < NUM_SHARDS ==> Content(tables, RepoPart(t, repo, i)) == []
  }

  /** How many requests it takes to empty a partition of `n` entries. */
  function DrainRequests(n: nat): nat {
    if n == 0 then 1 else 2 + DrainRequests(if n < SCAN_BATCH_SIZE then 0 else n - SCAN_BATCH_SIZE)
  }

  function DrainCosts(t: Table, repo: Key, shards: set<nat>, tables: Store): map<nat, nat> {
    map i: nat | i in shards :: DrainRequests(|Content(tables, RepoPart(t, repo, i))|)
  }

  ghost function CostSoFar(t: Table, repo: Key, shards: set<nat>, tables: Store): (r: nat) {
    SumAtLeastZero(DrainCosts(t, repo, shards, tables));
    Sum(DrainCosts(t, repo, shards, tables), Count)
  }

  lemma SumAtLeastZero(m: map<nat, nat>)
    ensures Sum(m, Count) >= 0
  {
    SumPart(map[], m, Count);
  }

  /** How many requests it takes to empty a table of a repository. */
  ghost function DrainCost(t: Table, repo: Key, tables: Store): nat {
    CostSoFar(t, repo, AllShards(), tables)
  }

  /** The drained shards are empty, and nothing else has changed. */
  ghost predicate DrainedSoFar(t: Table, repo: Key, drained: set<nat>, before: Store, now: Store) {
    && Confined(t, repo, drained, before, now)
    && forall i :: i in drained ==> i < NUM_SHARDS && Content(now, RepoPart(t, repo, i)) == []
  }

  lemma DrainBegins(t: Table, repo: Key, tables: Store, outage: nat -> bool, first: nat)
    ensures DrainedSoFar(t, repo, {}, tables, tables)
    ensures Ran(outage, first, CostSoFar(t, repo, {}, tables), true, first)
  {
    assert DrainCosts(t, repo, {}, tables) == map[];
  }

  lemma DrainNext(t: Table, repo: Key, drained: set<nat>, shard: nat, before: Store, now: Store, after: Store)
    requires DrainedSoFar(t, repo, drained, before, now) && shard in AllShards() && shard !in drained
    requires Elsewhere(RepoPart(t, repo, shard), now, after)
    ensures Content(now, RepoPart(t, repo, shard)) == Content(before, RepoPart(t, repo, shard))
    ensures Content(after, RepoPart(t, repo, shard)) == [] ==> DrainedSoFar(t, repo, drained + {shard}, before, after)
    ensures OnlyTouches(repo, before, after) && OtherTableSame(t, before, after)
  {
    hide ShardPk, Content;
    forall i | i in drained
      ensures RepoPart(t, repo, i) != RepoPart(t, repo, shard)
    {
      ShardsApart(t, repo, i, shard);
    }
  }

  lemma RanNext(t: Table, repo: Key, drained: set<nat>, shard: nat, before: Store, now: Store,
                outage: nat -> bool, first: nat, mid: nat, finished: bool, next: nat)
    requires shard in AllShards() && shard !in drained && drained <= AllShards()
    requires Content(now, RepoPart(t, repo, shard)) == Content(before, RepoPart(t, repo, shard))
    requires Ran(outage, first, CostSoFar(t, repo, drained, before), true, mid)
    requires Ran(outage, mid, DrainRequests(|Content(now, RepoPart(t, repo, shard))|), finished, next)
    ensures if finished then Ran(outage, first, CostSoFar(t, repo, drained + {shard}, before), true, next)
            else Ran(outage, first, DrainCost(t, repo, before), false, next)
  {
    hide ShardPk, Content, Ran, Sum;
    var cost := DrainRequests(|Content(now, RepoPart(t, repo, shard))|);
    var costs, more := DrainCosts(t, repo, drained, before), DrainCosts(t, repo, drained + {shard}, before);
    assert more == costs[shard := cost];
    SumPut<nat, nat>(costs, Count, shard, cost);
    SumPart<nat, nat>(more, DrainCosts(t, repo, AllShards(), before), Count);
    var soFar := CostSoFar(t, repo, drained, before);
    RanOn(outage, first, soFar, mid, cost, finished, next);
    if !finished {
      RanShort(outage, first, soFar + cost, DrainCost(t, repo, before), next);
    }
  }

  lemma DrainEnds(t: Table, repo: Key, before: Store, after: Store)
    requires DrainedSoFar(t, repo, AllShards(), before, after)
    ensures OnlyTouches(repo, before, after) && OtherTableSame(t, before, after) && TableEmpty(t, repo, after)
    ensures DrainCost(t, repo, before) == CostSoFar(t, repo, AllShards(), before)
  {
    assert forall i: nat :: i < NUM_SHARDS ==> IsShard(i) && i in AllShards();
  }

  lemma SameCost(t: Table, repo: Key, before: Store, after: Store)
    requires exists u: Table :: u != t && OtherTableSame(u, before, after)
    ensures DrainCost(t, repo, after) == DrainCost(t, repo, before)
  {
    assert DrainCosts(t, repo, AllShards(), after) == DrainCosts(t, repo, AllShards(), before);
  }

  lemma BothDrained(repo: Key, before: Store, middle: Store, after: Store)
    requires OnlyTouches(repo, before, middle) && OnlyTouches(repo, middle, after) && OtherTableSame(DirEntries, middle, after)
    ensures OnlyTouches(repo, before, after)
    ensures TableEmpty(Artifacts, repo, middle) ==> TableEmpty(Artifacts, repo, after)
  {
  }

  lemma TouchesOn(repo: Key, before: Store, now: Store, after: Store)
    requires OnlyTouches(repo, before, now) && OnlyTouches(repo, now, after)
    ensures OnlyTouches(repo, before, after)
  {
  }

  lemma ContentAscends(tables: Store, p: Part)
    requires Sorted(tables)
    ensures Ascending(Content(tables, p))
  {
  }

  lemma NothingCopied(whole: seq<Entry>, before: seq<Entry>)
    ensures whole == [] + From(whole, StartOf(None)) && PutAll(before, []) == before
  {
    CutIs(whole, [], 0);
  }

  lemma ElsewhereOn(p: Part, before: Store, now: Store, after: Store)
    requires Elsewhere(p, before, now) && Elsewhere(p, now, after)
    ensures Elsewhere(p, before, after)
  {
  }

  lemma SameElsewhere(p: Part, tables: Store)
    ensures Elsewhere(p, tables, tables)
  {
  }

  lemma ChangedElsewhere(p: Part, before: Store, now: Store, content: seq<Entry>)
    requires Elsewhere(p, before, now)
    ensures Elsewhere(p, before, now[p := content]) && Content(now[p := content], p) == content
  {
  }

  /** An unbounded scan from the start is a batch off the front. */
  lemma WholeScan(part: seq<Entry>)
    ensures Below(From(part, []), None) == part
    ensures |part| > 0 ==> DrainRequests(|part|) == 2 + DrainRequests(|part| - |Take(part, SCAN_BATCH_SIZE)|)
  {
    CutIs(part, [], 0);
    Unbounded(part);
  }

  /** A drained repository answers no path, and a clone that takes its name over answers every
      path exactly as its source. */
  lemma DrainedNameIsClean(source: Key, target: Key, before: Store, after: Store, shardOf: Key -> nat)
    requires forall k :: shardOf(k) < NUM_SHARDS
    requires TableEmpty(Artifacts, target, before)
    requires TableCopied(Artifacts, source, target, before, after)
    ensures forall path :: GetArtifact(before, shardOf, target, path) == None
    ensures forall path :: GetArtifact(after, shardOf, target, path) == GetArtifact(before, shardOf, source, path)
  {
    forall path: Path
      ensures GetArtifact(before, shardOf, target, path) == None
    {
      assert Content(before, RepoPart(Artifacts, target, shardOf(Normalize(path)))) == [];
    }
    CloneAnswersIff(source, target, before, after, shardOf);
  }

  lemma RepoPartsApart(t: Table, a: Key, b: Key, i: nat)
    requires a != b
    ensures forall j: nat :: RepoPart(t, a, j) != RepoPart(t, b, i)
  {
    forall j: nat
      ensures RepoPart(t, a, j) != RepoPart(t, b, i)
    {
      if ShardPk(a, j) == ShardPk(b, i) {
        ShardPkInjective(a, j, b, i);
      }
    }
  }

  lemma ShardsApart(t: Table, repo: Key, i: nat, j: nat)
    requires i != j
    ensures RepoPart(t, repo, i) != RepoPart(t, repo, j)
  {
    if ShardPk(repo, i) == ShardPk(repo, j) {
      ShardPkInjective(repo, i, repo, j);
    }
  }

  lemma CopiedNext(t: Table, source: Key, target: Key, sizes: map<nat, nat>, shard: nat,
                   before: Store, now: Store, after: Store)
    requires source != target && shard !in sizes && shard < NUM_SHARDS
    requires CopiedSoFar(t, source, target, sizes, before, now)
    requires Elsewhere(RepoPart(t, target, shard), now, after)
    requires var src, dst := RepoPart(t, source, shard), RepoPart(t, target, shard);
             Overlaid(Content(now, src), Content(now, dst), Content(after, dst))
    ensures CopiedSoFar(t, source, target, sizes[shard := |Content(now, RepoPart(t, source, shard))|], before, after)
  {
    hide Overlaid, ShardPk, Content;
    assert sizes.Keys + {shard} == sizes[shard := 0].Keys;
    forall i | i in sizes
      ensures RepoPart(t, source, shard) != RepoPart(t, target, i) && RepoPart(t, target, shard) != RepoPart(t, target, i)
    {
      RepoPartsApart(t, source, target, i);
      ShardsApart(t, target, shard, i);
    }
  }

  ghost predicate Progress(whole: seq<Entry>, before: seq<Entry>, copied: seq<Entry>, cursor: Option<Key>,
                           src: seq<Entry>, dst: seq<Entry>)
  {
    && Ascending(whole) && whole == copied + From(whole, StartOf(cursor))
    && src == whole && dst == PutAll(before, copied)
  }

  function StartOf(cursor: Option<Key>): Key {
    if cursor.Some? then cursor.value else []
  }

  lemma {:induction false} Unbounded(s: seq<Entry>)
    ensures Below(s, None) == s
  {
    if s != [] {
      Unbounded(s[1..]);
    }
  }

  /** What one batch adds, and where the next one starts. */
  lemma CopyStep(whole: seq<Entry>, before: seq<Entry>, copied: seq<Entry>, cursor: Option<Key>,
                 items: seq<Entry>, done: bool)
    requires Ascending(whole) && whole == copied + From(whole, StartOf(cursor))
    requires items == Take(Below(From(whole, StartOf(cursor)), None), SCAN_BATCH_SIZE)
    requires done ==> items == Below(From(whole, StartOf(cursor)), None)
    requires !done ==> items != []
    ensures PutAll(PutAll(before, copied), items) == PutAll(before, copied + items)
    ensures done ==> whole == copied + items
    ensures items == [] ==> whole == copied
    ensures !done ==> Resumes(whole, copied + items, cursor, Some(items[|items| - 1].key + [0]))
  {
    var rest := From(whole, StartOf(cursor));
    Unbounded(rest);
    PutAllAppend(before, copied, items);
    hide PutAll, From, Below, Ascending;
    if !done {
      ResumeAfterBatch(whole, StartOf(cursor), items);
      assert copied + items + From(whole, items[|items| - 1].key + [0]) == copied + rest;
    }
  }

  ghost predicate Resumes(whole: seq<Entry>, copied: seq<Entry>, cursor: Option<Key>, next: Option<Key>) {
    && whole == copied + From(whole, StartOf(next))
    && |From(whole, StartOf(next))| < |From(whole, StartOf(cursor))|
  }

  lemma CopyEnd(before: seq<Entry>, whole: seq<Entry>)
    requires Ascending(before) && Ascending(whole)
    ensures Overlaid(whole, before, PutAll(before, whole))
  {
    forall k
      ensures Lookup(PutAll(before, whole), k)
           == if Lookup(whole, k).Some? then Lookup(whole, k) else Lookup(before, k)
    {
      PutAllLookup(before, whole, k);
    }
  }
}
