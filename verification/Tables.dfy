/** Partitions as ascending sequences: lookups, batched puts and deletes, and the sharded
    partition keys that keep repositories apart. */
module Tables {
  import opened Lex
  import opened Scan
  import opened Paths

  function Lookup(part: seq<Entry>, k: Key): Option<Value> {
    if part == [] then None
    else if part[0].key == k then Some(part[0].value)
    else Lookup(part[1..], k)
  }

  function Put(part: seq<Entry>, e: Entry): seq<Entry> {
    if part == [] || Lt(e.key, part[0].key) then [e] + part
    else if part[0].key == e.key then [e] + part[1..]
    else [part[0]] + Put(part[1..], e)
  }

  function PutAll(part: seq<Entry>, items: seq<Entry>): seq<Entry> {
    if items == [] then part else Put(PutAll(part, items[..|items| - 1]), items[|items| - 1])
  }

  function Remove(part: seq<Entry>, k: Key): seq<Entry> {
    if part == [] then []
    else if part[0].key == k then part[1..]
    else [part[0]] + Remove(part[1..], k)
  }

  lemma {:induction false} PutLookup(part: seq<Entry>, e: Entry, k: Key)
    requires Ascending(part)
    ensures Lookup(Put(part, e), k) == if k == e.key then Some(e.value) else Lookup(part, k)
  {
    if part == [] || Lt(e.key, part[0].key) {
      assert ([e] + part)[1..] == part;
    } else if part[0].key == e.key {
      assert ([e] + part[1..])[1..] == part[1..];
    } else {
      PutLookup(part[1..], e, k);
      assert ([part[0]] + Put(part[1..], e))[1..] == Put(part[1..], e);
    }
  }

  /** Every key of the result was there or is the new one. */
  lemma {:induction false} PutMembers(part: seq<Entry>, e: Entry, x: Entry)
    requires x in Put(part, e)
    ensures x == e || x in part
  {
    if part != [] && !Lt(e.key, part[0].key) && part[0].key != e.key {
      if x != part[0] {
        PutMembers(part[1..], e, x);
      }
    }
  }

  lemma {:induction false} PutAscending(part: seq<Entry>, e: Entry)
    requires Ascending(part)
    ensures Ascending(Put(part, e))
  {
    OrderLaws();
    if part == [] {
    } else if Lt(e.key, part[0].key) {
      assert forall j :: 0 < j < |part| ==> Lt(part[0].key, part[j].key);
    } else if part[0].key != e.key {
      PutAscending(part[1..], e);
      var rest := Put(part[1..], e);
      forall j | 0 <= j < |rest|
        ensures Lt(part[0].key, rest[j].key)
      {
        PutMembers(part[1..], e, rest[j]);
        if rest[j] != e {
          var i :| 0 <= i < |part[1..]| && part[1..][i] == rest[j];
          assert part[i + 1] == rest[j];
        }
      }
    }
  }

  lemma {:induction false} PutAllAscending(part: seq<Entry>, items: seq<Entry>)
    requires Ascending(part)
    ensures Ascending(PutAll(part, items))
  {
    if items != [] {
      PutAllAscending(part, items[..|items| - 1]);
      PutAscending(PutAll(part, items[..|items| - 1]), items[|items| - 1]);
    }
  }

  lemma {:induction false} PutAllAppend(part: seq<Entry>, a: seq<Entry>, b: seq<Entry>)
    ensures PutAll(PutAll(part, a), b) == PutAll(part, a + b)
  {
    if b == [] {
      assert a + b == a;
    } else {
      var init := b[..|b| - 1];
      PutAllAppend(part, a, init);
      assert (a + b)[..|a + b| - 1] == a + init;
    }
  }

  lemma {:induction false} LookupIn(part: seq<Entry>, k: Key)
    requires Ascending(part)
    ensures Lookup(part, k).Some? <==> exists v :: Entry(k, v) in part
    ensures forall v :: Entry(k, v) in part ==> Lookup(part, k) == Some(v)
  {
    OrderLaws();
    if part != [] {
      LookupIn(part[1..], k);
      assert part == [part[0]] + part[1..];
      if part[0].key == k {
        assert Entry(k, part[0].value) in part;
      } else {
        assert forall v :: Entry(k, v) in part <==> Entry(k, v) in part[1..];
      }
    }
  }

  /** Putting a whole ascending listing overlays it. */
  lemma {:induction false} PutAllLookup(part: seq<Entry>, items: seq<Entry>, k: Key)
    requires Ascending(part) && Ascending(items)
    ensures Lookup(PutAll(part, items), k)
         == if Lookup(items, k).Some? then Lookup(items, k) else Lookup(part, k)
  {
    if items != [] {
      var init, last := items[..|items| - 1], items[|items| - 1];
      PutAllLookup(part, init, k);
      PutAllAscending(part, init);
      PutLookup(PutAll(part, init), last, k);
      LookupIn(items, k);
      LookupIn(init, k);
      assert items == init + [last];
      assert k == last.key ==> Entry(k, last.value) in items;
      if k != last.key {
        assert forall v :: Entry(k, v) in items <==> Entry(k, v) in init;
      }
    }
  }

  lemma RemoveHead(part: seq<Entry>)
    requires part != []
    ensures Remove(part, part[0].key) == part[1..]
  {
  }

  // --- Partition keys ---

  /** The shard index in decimal. */
  function Decimal(n: nat): Key {
    (if n < 10 then [] else Decimal(n / 10)) + [48 + n % 10]
  }

  function ValueOf(digits: Key): int {
    if digits == [] then 0
    else 10 * ValueOf(digits[..|digits| - 1]) + digits[|digits| - 1] - 48
  }

  lemma {:induction false} DecimalReads(n: nat)
    ensures ValueOf(Decimal(n)) == n && SLASH !in Decimal(n)
  {
    if n < 10 {
      assert Decimal(n) == [48 + n];
      assert Decimal(n)[..0] == [];
    } else {
      DecimalReads(n / 10);
      var init, digit := Decimal(n / 10), 48 + n % 10;
      assert n == 10 * (n / 10) + n % 10;
    }
  }

  function ShardPk(scope: Key, shard: nat): Key {
    scope + [SLASH] + Decimal(shard)
  }

  lemma {:induction false} SplitAtLastSlash(a: Key, d: Key)
    requires SLASH !in d
    ensures ParentDir(a + [SLASH] + d) == a && BaseName(a + [SLASH] + d) == d
  {
    var p := a + [SLASH] + d;
    if d == [] {
      assert p[..|p| - 1] == a;
    } else {
      var init := d[..|d| - 1];
      SplitAtLastSlash(a, init);
      assert p[..|p| - 1] == a + [SLASH] + init;
      assert d[|d| - 1] in d;
    }
  }

  /** Scopes and shards can be read back off a partition key, whatever slashes the scope holds. */
  lemma ShardPkInjective(a: Key, i: nat, b: Key, j: nat)
    requires ShardPk(a, i) == ShardPk(b, j)
    ensures a == b && i == j
  {
    DecimalReads(i);
    DecimalReads(j);
    SplitAtLastSlash(a, Decimal(i));
    SplitAtLastSlash(b, Decimal(j));
  }
}
