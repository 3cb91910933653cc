/** Recomputing every store's counters from its blob records, partition by partition. */
module Reconcile {
  import opened Blobs
  import opened StoreCounter

  datatype Record = Record(store: Store, hash: Hash, size: nat)

  datatype Stats = Stats(count: int, bytes: int)

  type Tallies = map<Store, Stats>

  function KeyOf(r: Record): Claim {
    Claim(r.store, r.hash)
  }

  /** One partition lists records of the table, each once. */
  ghost predicate Lists(part: seq<Record>, table: map<Claim, nat>) {
    && (forall i :: 0 <= i < |part| ==> KeyOf(part[i]) in table && table[KeyOf(part[i])] == part[i].size)
    && (forall i, j :: 0 <= i < j < |part| ==> KeyOf(part[i]) != KeyOf(part[j]))
  }

  ghost predicate Disjoint(a: seq<Record>, b: seq<Record>) {
    forall r, q :: r in a && q in b ==> KeyOf(r) != KeyOf(q)
  }

  /** The table split over partitions: nothing missing, nothing twice. */
  ghost predicate Partitioned(parts: seq<seq<Record>>, table: map<Claim, nat>) {
    && (forall i :: 0 <= i < |parts| ==> Lists(parts[i], table))
    && (forall i, j :: 0 <= i < |parts| && 0 <= j < |parts| && i != j ==> Disjoint(parts[i], parts[j]))
    && (forall k :: k in table ==> exists i, r :: 0 <= i < |parts| && r in parts[i] && KeyOf(r) == k)
  }

  /** The sub-table a set of keys covers. */
  function Restrict(table: map<Claim, nat>, keys: set<Claim>): map<Claim, nat> {
    map k | k in table && k in keys :: table[k]
  }

  ghost function Keys(part: seq<Record>): set<Claim> {
    set r | r in part :: KeyOf(r)
  }

  function StatsOf(t: Tallies, store: Store): Stats {
    if store in t then t[store] else Stats(0, 0)
  }

  /** The tallies are the totals of the records seen so far. */
  ghost predicate Counts(t: Tallies, table: map<Claim, nat>, seen: set<Claim>) {
    forall store :: StatsOf(t, store)
      == Stats(LiveCount(Restrict(table, seen), store), LiveBytes(Restrict(table, seen), store))
  }

  lemma CountsNothing(table: map<Claim, nat>)
    ensures Counts(map[], table, {})
  {
    assert Restrict(table, {}) == map[];
  }

  lemma CountsOneMore(t: Tallies, table: map<Claim, nat>, seen: set<Claim>, r: Record)
    requires Counts(t, table, seen) && KeyOf(r) in table && table[KeyOf(r)] == r.size && KeyOf(r) !in seen
    ensures var old' := StatsOf(t, r.store);
            Counts(t[r.store := Stats(old'.count + 1, old'.bytes + r.size)], table, seen + {KeyOf(r)})
  {
    var before := Restrict(table, seen);
    assert Restrict(table, seen + {KeyOf(r)}) == before[KeyOf(r) := r.size];
    forall store {
      RecordPut(before, KeyOf(r), r.size, store);
    }
  }

  /** The fold over one partition. */
  method FoldPartition(part: seq<Record>, ghost table: map<Claim, nat>) returns (t: Tallies)
    requires Lists(part, table)
    ensures Counts(t, table, Keys(part))
  {
    hide Counts;
    t := map[];
    CountsNothing(table);
    assert Keys(part[..0]) == {};
    for i := 0 to |part|
      invariant Counts(t, table, Keys(part[..i]))
    {
      var r := part[i];
      assert Keys(part[..i + 1]) == Keys(part[..i]) + {KeyOf(r)} by {
        assert part[..i + 1] == part[..i] + [r];
      }
      CountsOneMore(t, table, Keys(part[..i]), r);
      t := t[r.store := Stats(StatsOf(t, r.store).count + 1, StatsOf(t, r.store).bytes + r.size)];
    }
    assert part[..|part|] == part;
  }

  lemma {:induction false} SumUnion(a: map<Claim, nat>, b: map<Claim, nat>, store: Store)
    requires a.Keys !! b.Keys
    ensures LiveCount(a + b, store) == LiveCount(a, store) + LiveCount(b, store)
    ensures LiveBytes(a + b, store) == LiveBytes(a, store) + LiveBytes(b, store)
    decreases |b|
  {
    hide LiveCount, LiveBytes;
    NothingLive(store);
    if b == map[] {
      assert a + b == a;
    } else {
      var k :| k in b;
      var rest := b - {k};
      SumUnion(a, rest, store);
      PutBack(a, b, k);
      RecordPut(a + rest, k, b[k], store);
      RecordPut(rest, k, b[k], store);
    }
  }

  lemma PutBack(a: map<Claim, nat>, b: map<Claim, nat>, k: Claim)
    requires k in b && k !in a
    ensures var rest := b - {k};
            (a + rest)[k := b[k]] == a + b && rest[k := b[k]] == b && k !in a + rest && k !in rest
  {
  }

  lemma NothingLive(store: Store)
    ensures LiveCount(map[], store) == 0 && LiveBytes(map[], store) == 0
  {
  }

  function Plus(a: Stats, b: Stats): Stats {
    Stats(a.count + b.count, a.bytes + b.bytes)
  }

  ghost predicate Adds(t: Tallies, a: Tallies, b: Tallies) {
    forall store :: StatsOf(t, store) == Plus(StatsOf(a, store), StatsOf(b, store))
  }

  /** Merging two partial tallies adds them store by store. */
  method Merge(a: Tallies, b: Tallies) returns (t: Tallies)
    ensures Adds(t, a, b)
  {
    hide AddedBut;
    t := a;
    var left := b.Keys;
    AddBegins(a, b);
    while left != {}
      invariant left <= b.Keys && AddedBut(t, a, b, left)
      decreases |left|
    {
      var store :| store in left;
      AddOne(t, a, b, left, store);
      t := t[store := Plus(StatsOf(t, store), b[store])];
      left := left - {store};
    }
    AddEnds(t, a, b);
  }

  /** Everything is added but the stores still left. */
  ghost predicate AddedBut(t: Tallies, a: Tallies, b: Tallies, left: set<Store>) {
    forall store :: StatsOf(t, store) == if store in left then StatsOf(a, store) else Plus(StatsOf(a, store), StatsOf(b, store))
  }

  lemma AddBegins(a: Tallies, b: Tallies)
    ensures AddedBut(a, a, b, b.Keys)
  {
  }

  lemma AddOne(t: Tallies, a: Tallies, b: Tallies, left: set<Store>, store: Store)
    requires AddedBut(t, a, b, left) && store in left && store in b
    ensures AddedBut(t[store := Plus(StatsOf(t, store), b[store])], a, b, left - {store})
  {
  }

  lemma AddEnds(t: Tallies, a: Tallies, b: Tallies)
    requires AddedBut(t, a, b, {})
    ensures Adds(t, a, b)
  {
  }

  lemma CountsMerge(t: Tallies, a: Tallies, b: Tallies, table: map<Claim, nat>, seen: set<Claim>, more: set<Claim>)
    requires Counts(a, table, seen) && Counts(b, table, more) && seen !! more
    requires Adds(t, a, b)
    ensures Counts(t, table, seen + more)
  {
    RestrictUnion(table, seen, more);
    forall store
      ensures StatsOf(t, store)
           == Stats(LiveCount(Restrict(table, seen + more), store), LiveBytes(Restrict(table, seen + more), store))
    {
      hide Restrict, LiveCount, LiveBytes;
      MergeOne(t, a, b, Restrict(table, seen), Restrict(table, more), store);
    }
  }

  lemma MergeOne(t: Tallies, a: Tallies, b: Tallies, x: map<Claim, nat>, y: map<Claim, nat>, store: Store)
    requires StatsOf(a, store) == Stats(LiveCount(x, store), LiveBytes(x, store))
    requires StatsOf(b, store) == Stats(LiveCount(y, store), LiveBytes(y, store))
    requires Adds(t, a, b) && x.Keys !! y.Keys
    ensures StatsOf(t, store) == Stats(LiveCount(x + y, store), LiveBytes(x + y, store))
  {
    hide LiveCount, LiveBytes;
    SumUnion(x, y, store);
  }

  lemma RestrictUnion(table: map<Claim, nat>, seen: set<Claim>, more: set<Claim>)
    requires seen !! more
    ensures Restrict(table, seen + more) == Restrict(table, seen) + Restrict(table, more)
    ensures Restrict(table, seen).Keys !! Restrict(table, more).Keys
  {
  }

  ghost function KeysOfAll(parts: seq<seq<Record>>, order: seq<nat>, n: nat): set<Claim>
    requires n <= |order| && forall i :: 0 <= i < |order| ==> order[i] < |parts|
  {
    if n == 0 then {} else KeysOfAll(parts, order, n - 1) + Keys(parts[order[n - 1]])
  }

  ghost predicate Permutation(order: seq<nat>, n: nat) {
    && (forall i :: 0 <= i < |order| ==> order[i] < n)
    && (forall i, j :: 0 <= i < j < |order| ==> order[i] != order[j])
    && (forall p :: 0 <= p < n ==> p in order)
  }

  lemma {:induction false} KeysOfAllMembers(parts: seq<seq<Record>>, order: seq<nat>, n: nat, k: Claim)
    requires n <= |order| && forall i :: 0 <= i < |order| ==> order[i] < |parts|
    ensures k in KeysOfAll(parts, order, n) <==> exists i :: 0 <= i < n && k in Keys(parts[order[i]])
  {
    if n > 0 {
      KeysOfAllMembers(parts, order, n - 1, k);
    }
  }

  /** The recount: the tallies of all partitions, merged in whatever order the partitions
      happened to complete, are each configured store's true totals. */
  method ReconcileStoreStats(stores: seq<Store>, parts: seq<seq<Record>>, order: seq<nat>, ghost table: map<Claim, nat>)
    returns (out: seq<Stats>)
    requires Partitioned(parts, table) && Permutation(order, |parts|)
    ensures |out| == |stores|
    ensures forall i :: 0 <= i < |stores| ==> out[i] == Stats(LiveCount(table, stores[i]), LiveBytes(table, stores[i]))
  {
    hide Counts, LiveCount, LiveBytes, Adds, Partitioned, Permutation, KeysOfAll, StatsOf;
    var tallies: Tallies := map[];
    CountsNothing(table);
    NextPart(parts, order, table);
    for i := 0 to |order|
      invariant Counts(tallies, table, KeysOfAll(parts, order, i))
    {
      var part := FoldPartition(parts[order[i]], table);
      var merged := Merge(tallies, part);
      CountsMerge(merged, tallies, part, table, KeysOfAll(parts, order, i), Keys(parts[order[i]]));
      tallies := merged;
    }
    AllSeen(parts, order, table);
    CountsAll(tallies, table, KeysOfAll(parts, order, |order|));
    out := [];
    for i := 0 to |stores|
      invariant |out| == i
      invariant forall j :: 0 <= j < i ==> out[j] == Stats(LiveCount(table, stores[j]), LiveBytes(table, stores[j]))
    {
      out := out + [StatsOf(tallies, stores[i])];
    }
  }

  /** Every partition's turn brings in records no earlier one had. */
  lemma NextPart(parts: seq<seq<Record>>, order: seq<nat>, table: map<Claim, nat>)
    requires Partitioned(parts, table) && Permutation(order, |parts|)
    ensures forall i :: 0 <= i < |order| ==> order[i] < |parts|
    ensures forall i :: 0 <= i < |order| ==> Lists(parts[order[i]], table)
    ensures KeysOfAll(parts, order, 0) == {}
    ensures forall i :: 0 <= i < |order| ==>
              && Keys(parts[order[i]]) !! KeysOfAll(parts, order, i)
              && KeysOfAll(parts, order, i + 1) == KeysOfAll(parts, order, i) + Keys(parts[order[i]])
  {
    forall i, k | 0 <= i < |order| && k in Keys(parts[order[i]])
      ensures k !in KeysOfAll(parts, order, i)
    {
      KeysOfAllMembers(parts, order, i, k);
    }
  }

  lemma AllSeen(parts: seq<seq<Record>>, order: seq<nat>, table: map<Claim, nat>)
    requires Partitioned(parts, table) && Permutation(order, |parts|)
    ensures forall k :: k in table ==> k in KeysOfAll(parts, order, |order|)
  {
    forall k | k in table
      ensures k in KeysOfAll(parts, order, |order|)
    {
      var i, r :| 0 <= i < |parts| && r in parts[i] && KeyOf(r) == k;
      assert k in Keys(parts[i]) && i in order;
      KeysOfAllMembers(parts, order, |order|, k);
    }
  }

  lemma CountsAll(t: Tallies, table: map<Claim, nat>, seen: set<Claim>)
    requires Counts(t, table, seen) && forall k :: k in table ==> k in seen
    ensures forall store :: StatsOf(t, store) == Stats(LiveCount(table, store), LiveBytes(table, store))
  {
    assert Restrict(table, seen) == table;
  }
}
