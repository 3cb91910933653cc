/** Listing one directory of the browse tree from the shard its children share. */
module Browse {
  import opened Lex
  import opened Scan
  import opened Paths
  import opened Tables

  /** The tree table of one repository: every path's entry sits in the shard of its parent,
      under the key made of parent and name. Paths that share both have one entry between
      them, left there by one of them. */
  ghost predicate Stores(parts: seq<seq<Entry>>, tree: map<Path, Value>, shardOf: Path -> nat) {
    && |parts| == NUM_SHARDS
    && (forall p :: shardOf(p) < NUM_SHARDS)
    && (forall i :: 0 <= i < |parts| ==> Ascending(parts[i]))
    && (forall p :: p in tree ==> Canonical(p) && HasKey(parts[shardOf(TreeParent(p))], TreeSortKey(p)))
    && (forall i, e :: 0 <= i < |parts| && e in parts[i] ==> exists p :: Holds(tree, shardOf, p, i, e))
  }

  ghost predicate HasKey(part: seq<Entry>, key: Key) {
    exists e :: e in part && e.key == key
  }

  ghost predicate Holds(tree: map<Path, Value>, shardOf: Path -> nat, p: Path, i: nat, e: Entry) {
    p in tree && shardOf(TreeParent(p)) == i && e == Entry(TreeSortKey(p), tree[p])
  }

  /** `p` is an entry directly inside directory `d`. */
  ghost predicate ChildOf(p: Path, d: Path) {
    p != [] && ParentDir(p) == d
  }

  datatype Child = Child(name: Key, value: Value)

  predicate Unslashed(p: Path) {
    p == [] || p[|p| - 1] != SLASH
  }

  /** The path without its trailing slashes. */
  function Trimmed(p: Path): (r: Path)
    ensures Unslashed(r) && r <= p && forall i :: |r| <= i < |p| ==> p[i] == SLASH
  {
    if Unslashed(p) then p else Trimmed(p[..|p| - 1])
  }

  method TrimEnd(path: Path) returns (r: Path)
    ensures r == Trimmed(path)
  {
    r := path;
    while r != [] && r[|r| - 1] == SLASH
      invariant Trimmed(r) == Trimmed(path)
      decreases |r|
    {
      r := r[..|r| - 1];
    }
  }

  /** Names read off keys under one directory keep the keys' order. */
  lemma {:induction false} NameOrder(d: Key, a: Key, b: Key)
    ensures Lt(d + a, d + b) <==> Lt(a, b)
  {
    if d == [] {
      assert d + a == a && d + b == b;
    } else {
      NameOrder(d[1..], a, b);
      assert (d + a)[1..] == d[1..] + a && (d + b)[1..] == d[1..] + b;
    }
  }

  ghost predicate NamesAscend(s: seq<Child>) {
    forall i, j :: 0 <= i < j < |s| ==> Lt(s[i].name, s[j].name)
  }

  // --- Sorting by name ---

  ghost predicate NamesSorted(s: seq<Child>) {
    forall i, j :: 0 <= i < j < |s| ==> Le(s[i].name, s[j].name)
  }

  function Insert(r: seq<Child>, c: Child): seq<Child> {
    if r == [] || Le(r[|r| - 1].name, c.name) then r + [c]
    else Insert(r[..|r| - 1], c) + [r[|r| - 1]]
  }

  lemma {:induction false} InsertAdds(r: seq<Child>, c: Child)
    ensures multiset(Insert(r, c)) == multiset(r) + multiset{c}
  {
    if r != [] && !Le(r[|r| - 1].name, c.name) {
      assert r == r[..|r| - 1] + [r[|r| - 1]];
      InsertAdds(r[..|r| - 1], c);
    }
  }

  lemma LeTrans(a: Key, b: Key, c: Key)
    requires Le(a, b) && Le(b, c)
    ensures Le(a, c)
  {
    if a != b && b != c {
      LtTrans(a, b, c);
    }
  }

  lemma {:induction false} InsertSorts(r: seq<Child>, c: Child)
    requires NamesSorted(r)
    ensures NamesSorted(Insert(r, c))
  {
    hide Lt;
    if r == [] {
    } else if Le(r[|r| - 1].name, c.name) {
      forall i | 0 <= i < |r|
        ensures Le(r[i].name, c.name)
      {
        LeTrans(r[i].name, r[|r| - 1].name, c.name);
      }
    } else {
      var init, last := r[..|r| - 1], r[|r| - 1];
      LtTotal(last.name, c.name);
      InsertSorts(init, c);
      InsertAdds(init, c);
      forall i | 0 <= i < |Insert(init, c)|
        ensures Le(Insert(init, c)[i].name, last.name)
      {
        assert Insert(init, c)[i] in multiset(Insert(init, c));
        assert Insert(init, c)[i] in init || Insert(init, c)[i] == c;
      }
    }
  }

  /** `sort_by` on names. A listing already in strict order comes out as it went in. */
  method SortByName(s: seq<Child>) returns (r: seq<Child>)
    ensures NamesSorted(r) && multiset(r) == multiset(s)
    ensures NamesAscend(s) ==> r == s
  {
    r := [];
    for i := 0 to |s|
      invariant NamesSorted(r) && multiset(r) == multiset(s[..i])
      invariant NamesAscend(s) ==> r == s[..i]
    {
      InsertSorts(r, s[i]);
      InsertAdds(r, s[i]);
      assert s[..i + 1] == s[..i] + [s[i]];
      assert NamesAscend(s) && i > 0 ==> Lt(s[i - 1].name, s[i].name);
      r := Insert(r, s[i]);
    }
    assert s[..|s|] == s;
  }

  // --- What a listing shows, and what it should ---

  /** An entry of the scanned shard under the directory's prefix, by the name read off its key. */
  ghost predicate Shown(parts: seq<seq<Entry>>, shardOf: Path -> nat, d: Path, c: Child)
    requires shardOf(d) < |parts|
  {
    exists e :: ShownAs(parts, shardOf, d, c, e)
  }

  ghost predicate ShownAs(parts: seq<seq<Entry>>, shardOf: Path -> nat, d: Path, c: Child, e: Entry)
    requires shardOf(d) < |parts|
  {
    e in parts[shardOf(d)] && d + [NUL] <= e.key && c == Child(SkName(e.key), e.value)
  }

  /** What a listing of `d` should contain: its children, plus the root entry when `d` is the
      reserved directory whose scan prefix the root entry shares. */
  ghost predicate Listed(tree: map<Path, Value>, d: Path, c: Child) {
    exists p :: ListedAs(tree, d, c, p)
  }

  ghost predicate ListedAs(tree: map<Path, Value>, d: Path, c: Child, p: Path) {
    p in tree && c == Child(BaseName(p), tree[p]) && (ChildOf(p, d) || (p == [] && d == ROOT_PARENT))
  }

  ghost predicate ListsRight(parts: seq<seq<Entry>>, tree: map<Path, Value>, shardOf: Path -> nat, d: Path)
    requires shardOf(d) < |parts|
  {
    forall c :: Shown(parts, shardOf, d, c) <==> Listed(tree, d, c)
  }

  /** A NUL that does not begin a segment below the top. */
  predicate MisplacedNul(parent: Path, i: nat) {
    i < |parent| && parent[i] == NUL && (i > 0 ==> parent[i - 1] != SLASH)
  }

  /** A path whose key some listing can misread: a NUL in its name, or a misplaced one in its
      parent's path. */
  ghost predicate Misleads(p: Path) {
    NUL in BaseName(p) || exists i: nat :: MisplacedNul(TreeParent(p), i)
  }

  /** The sort keys under a directory are its children's, and the name read off is theirs. */
  lemma KeyUnder(p: Path, d: Path)
    requires Canonical(p) && Unslashed(d) && !Misleads(p)
    ensures d + [NUL] <= TreeSortKey(p) <==> TreeParent(p) == d
    ensures SkName(TreeSortKey(p)) == BaseName(p)
  {
    SkNameOf(TreeParent(p), BaseName(p));
    hide BaseName, ParentDir;
    if d + [NUL] <= TreeSortKey(p) {
      KeySplitAt(TreeParent(p), BaseName(p), d);
    }
    if d == TreeParent(p) {
      assert (d + [NUL] + BaseName(p))[..|d| + 1] == d + [NUL];
    }
  }

  /** Where a NUL can stand that ends a directory's name in a key. */
  lemma KeySplitAt(parent: Path, name: Path, d: Path)
    requires d + [NUL] <= parent + [NUL] + name && Unslashed(d)
    ensures |d| < |parent| ==> MisplacedNul(parent, |d|)
    ensures |d| == |parent| ==> d == parent
    ensures |d| > |parent| ==> NUL in name
  {
    var key := parent + [NUL] + name;
    assert d == key[..|d|] && key[|d|] == NUL;
    if |d| > |parent| {
      assert name[|d| - |parent| - 1] == NUL;
    } else {
      assert key[..|d|] == parent[..|d|];
    }
  }

  /** A directory whose listing turns up a path that is not its child. */
  lemma MisleadingDir(p: Path) returns (d: Path)
    requires Canonical(p) && Misleads(p)
    ensures Canonical(d) && d + [NUL] <= TreeSortKey(p) && d != TreeParent(p)
  {
    hide Canonical, ParentDir, BaseName;
    var parent, name := TreeParent(p), BaseName(p);
    ParentCanonical(p);
    ParentAndName(p);
    if NUL in name {
      var j :| 0 <= j < |name| && name[j] == NUL;
      LongerCanonical(parent, name[..j]);
      d := parent + [NUL] + name[..j];
      FrontOfKey(parent, name, j);
    } else {
      var i: nat :| MisplacedNul(parent, i);
      PrefixCanonical(parent, i);
      d := parent[..i];
      FrontOfParent(parent, name, i);
    }
  }

  lemma FrontOfKey(parent: Path, name: Path, j: nat)
    requires j < |name| && name[j] == NUL
    ensures parent + [NUL] + name[..j] + [NUL] <= parent + [NUL] + name
  {
    assert name[..j] + [NUL] == name[..j + 1];
    assert parent + [NUL] + name[..j] + [NUL] == parent + [NUL] + name[..j + 1];
  }

  lemma FrontOfParent(parent: Path, name: Path, i: nat)
    requires i < |parent| && parent[i] == NUL
    ensures parent[..i] + [NUL] <= parent + [NUL] + name
  {
    assert parent[..i] + [NUL] == parent[..i + 1];
  }

  // --- The operation ---

  /** One level of the tree, split by kind and sorted by name: exactly what the shard holds under
      the directory's prefix. When no path misleads, that is each child once, although other
      directories' entries share the shard; the reserved name `_root` also turns up the root. */
  method ListChildren(parts: seq<seq<Entry>>, prefix: Path, isDir: Value -> bool, utf8: Key -> bool, lower: Key -> Key,
                      shardOf: Path -> nat, ghost tree: map<Path, Value>)
    returns (dirs: seq<Child>, files: seq<Child>)
    requires Stores(parts, tree, shardOf)
    ensures var d := Trimmed(prefix);
            && (forall c :: c in dirs <==> Shown(parts, shardOf, d, c) && isDir(c.value))
            && (forall c :: c in files <==> Shown(parts, shardOf, d, c) && !isDir(c.value))
    ensures NamesSorted(dirs) && NamesSorted(files)
    ensures (forall p :: p in tree ==> !Misleads(p)) ==>
              var d := Trimmed(prefix);
              && (forall c :: c in dirs <==> Listed(tree, d, c) && isDir(c.value))
              && (forall c :: c in files <==> Listed(tree, d, c) && !isDir(c.value))
              && NamesAscend(dirs) && NamesAscend(files)
  {
    hide Lt, Le, Filter, Shown, Listed, Misleads, Collected, Ascending, NamesSorted, Stores;
    var clean := TrimEnd(prefix);
    PartsThere(parts, tree, shardOf);
    var q := Query(clean + [NUL], None, lower);
    var part := parts[shardOf(clean)];
    var visited := ForEachInPartition(part, q, SCAN_BATCH_SIZE, utf8);
    FilterAscending(q, part);
    ghost var harmless := forall p :: p in tree ==> !Misleads(p);
    dirs, files := [], [];
    NothingCollected(visited, isDir, harmless);
    for i := 0 to |visited|
      invariant Collected(visited, i, dirs, files, isDir, harmless)
    {
      var c := Child(SkName(visited[i].key), visited[i].value);
      if harmless {
        NameAbove(parts, tree, shardOf, clean, q, visited, i);
      }
      CollectNext(visited, i, dirs, files, isDir, harmless);
      if isDir(c.value) {
        dirs := dirs + [c];
      } else {
        files := files + [c];
      }
    }
    AllCollected(parts, tree, shardOf, clean, q, visited, dirs, files, isDir, harmless);
    dirs := SortedMembers(dirs);
    files := SortedMembers(files);
  }

  lemma PartsThere(parts: seq<seq<Entry>>, tree: map<Path, Value>, shardOf: Path -> nat)
    requires Stores(parts, tree, shardOf)
    ensures forall p :: shardOf(p) < |parts| && Ascending(parts[shardOf(p)])
  {
  }

  method SortedMembers(s: seq<Child>) returns (r: seq<Child>)
    ensures NamesSorted(r) && (NamesAscend(s) ==> r == s)
    ensures forall c :: c in r <==> c in s
  {
    r := SortByName(s);
    forall c
      ensures c in r <==> c in s
    {
      assert c in r <==> c in multiset(r);
      assert c in s <==> c in multiset(s);
    }
  }

  /** `c` is what the callback made of the `j`-th visited entry, among the first `n`. */
  ghost predicate Names(visited: seq<Entry>, n: nat, j: nat, c: Child) {
    j < n <= |visited| && c == Child(SkName(visited[j].key), visited[j].value)
  }

  ghost predicate Named(visited: seq<Entry>, n: nat, c: Child) {
    exists j :: Names(visited, n, j, c)
  }

  /** What the callback has collected from the first `n` visited entries. */
  ghost predicate Collected(visited: seq<Entry>, n: nat, dirs: seq<Child>, files: seq<Child>,
                            isDir: Value -> bool, harmless: bool) {
    && (forall c :: c in dirs <==> isDir(c.value) && Named(visited, n, c))
    && (forall c :: c in files <==> !isDir(c.value) && Named(visited, n, c))
    && (harmless ==> NamesAscend(dirs) && NamesAscend(files))
  }

  lemma NothingCollected(visited: seq<Entry>, isDir: Value -> bool, harmless: bool)
    ensures Collected(visited, 0, [], [], isDir, harmless)
  {
  }

  lemma CollectNext(visited: seq<Entry>, i: nat, dirs: seq<Child>, files: seq<Child>, isDir: Value -> bool, harmless: bool)
    requires i < |visited| && Collected(visited, i, dirs, files, isDir, harmless)
    requires harmless ==> forall j, c :: Names(visited, i, j, c) ==> Lt(c.name, SkName(visited[i].key))
    ensures var c := Child(SkName(visited[i].key), visited[i].value);
            if isDir(c.value) then Collected(visited, i + 1, dirs + [c], files, isDir, harmless)
            else Collected(visited, i + 1, dirs, files + [c], isDir, harmless)
  {
    hide Lt, SkName, Names;
    var c := Child(SkName(visited[i].key), visited[i].value);
    VisitNext(visited, i);
    if harmless {
      var grown := if isDir(c.value) then dirs else files;
      forall j | 0 <= j < |grown|
        ensures Lt(grown[j].name, c.name)
      {
        assert Named(visited, i, grown[j]);
      }
    }
  }

  lemma AllCollected(parts: seq<seq<Entry>>, tree: map<Path, Value>, shardOf: Path -> nat, d: Path, q: Query,
                     visited: seq<Entry>, dirs: seq<Child>, files: seq<Child>, isDir: Value -> bool, harmless: bool)
    requires Stores(parts, tree, shardOf) && Unslashed(d) && q.prefix == d + [NUL] && q.needle.None?
    requires visited == Filter(q, parts[shardOf(d)])
    requires Collected(visited, |visited|, dirs, files, isDir, harmless)
    requires harmless ==> forall p :: p in tree ==> !Misleads(p)
    ensures forall c :: c in dirs <==> Shown(parts, shardOf, d, c) && isDir(c.value)
    ensures forall c :: c in files <==> Shown(parts, shardOf, d, c) && !isDir(c.value)
    ensures harmless ==>
              && (forall c :: c in dirs <==> Listed(tree, d, c) && isDir(c.value))
              && (forall c :: c in files <==> Listed(tree, d, c) && !isDir(c.value))
              && NamesAscend(dirs) && NamesAscend(files)
  {
    hide Shown, Listed, Named, Filter, NamesAscend, Misleads;
    VisitedIsShown(parts, shardOf, d, q, visited);
    if harmless {
      HarmlessListsRight(parts, tree, shardOf, d);
    }
  }

  lemma VisitNext(visited: seq<Entry>, i: nat)
    requires i < |visited|
    ensures forall c :: Named(visited, i + 1, c) <==>
                        Named(visited, i, c) || c == Child(SkName(visited[i].key), visited[i].value)
  {
    var n := i + 1;
    forall c
      ensures Named(visited, n, c) <==> Named(visited, i, c) || c == Child(SkName(visited[i].key), visited[i].value)
    {
      if j: nat :| Names(visited, i, j, c) {
        assert Names(visited, n, j, c);
      }
      if j: nat :| Names(visited, n, j, c) {
        assert j < i ==> Names(visited, i, j, c);
      }
      assert c == Child(SkName(visited[i].key), visited[i].value) ==> Names(visited, n, i, c);
    }
  }

  lemma VisitedIsShown(parts: seq<seq<Entry>>, shardOf: Path -> nat, d: Path, q: Query, visited: seq<Entry>)
    requires shardOf(d) < |parts| && q.prefix == d + [NUL] && q.needle.None?
    requires visited == Filter(q, parts[shardOf(d)])
    ensures forall c :: Named(visited, |visited|, c) <==> Shown(parts, shardOf, d, c)
  {
    FilterMembers(q, parts[shardOf(d)]);
    hide Filter, SkName;
    forall c
      ensures Named(visited, |visited|, c) <==> Shown(parts, shardOf, d, c)
    {
      if j: nat :| Names(visited, |visited|, j, c) {
        assert visited[j] in visited;
        assert ShownAs(parts, shardOf, d, c, visited[j]);
      }
      if e :| ShownAs(parts, shardOf, d, c, e) {
        assert e in visited;
        var j :| 0 <= j < |visited| && visited[j] == e;
        assert Names(visited, |visited|, j, c);
      }
    }
  }

  lemma NameAbove(parts: seq<seq<Entry>>, tree: map<Path, Value>, shardOf: Path -> nat, d: Path, q: Query,
                  visited: seq<Entry>, i: nat)
    requires Stores(parts, tree, shardOf) && Unslashed(d) && q.prefix == d + [NUL] && q.needle.None?
    requires forall p :: p in tree ==> !Misleads(p)
    requires visited == Filter(q, parts[shardOf(d)]) && Ascending(visited) && i < |visited|
    ensures forall j, c :: Names(visited, i, j, c) ==> Lt(c.name, SkName(visited[i].key))
  {
    forall j | 0 <= j < i
      ensures Lt(SkName(visited[j].key), SkName(visited[i].key))
    {
      assert Lt(visited[j].key, visited[i].key);
      KeyIsName(parts, tree, shardOf, d, q, visited[j]);
      KeyIsName(parts, tree, shardOf, d, q, visited[i]);
      NameOrder(d + [NUL], SkName(visited[j].key), SkName(visited[i].key));
    }
  }

  lemma KeyIsName(parts: seq<seq<Entry>>, tree: map<Path, Value>, shardOf: Path -> nat, d: Path, q: Query, e: Entry)
    requires Stores(parts, tree, shardOf) && Unslashed(d) && q.prefix == d + [NUL] && q.needle.None?
    requires forall p :: p in tree ==> !Misleads(p)
    requires e in Filter(q, parts[shardOf(d)])
    ensures e.key == d + [NUL] + SkName(e.key)
  {
    FilterMembers(q, parts[shardOf(d)]);
    var p :| Holds(tree, shardOf, p, shardOf(d), e);
    KeyUnder(p, d);
  }

  // --- When listings are right ---

  lemma ShownIsListed(parts: seq<seq<Entry>>, tree: map<Path, Value>, shardOf: Path -> nat, d: Path, c: Child)
    requires Stores(parts, tree, shardOf) && Unslashed(d) && Shown(parts, shardOf, d, c)
    requires forall p :: p in tree ==> !Misleads(p)
    ensures Listed(tree, d, c)
  {
    hide Misleads, Canonical, SkName;
    var e :| ShownAs(parts, shardOf, d, c, e);
    var p :| Holds(tree, shardOf, p, shardOf(d), e);
    KeyUnder(p, d);
    assert ListedAs(tree, d, c, p);
  }

  lemma ListedIsShown(parts: seq<seq<Entry>>, tree: map<Path, Value>, shardOf: Path -> nat, d: Path, c: Child)
    requires Stores(parts, tree, shardOf) && Unslashed(d) && Listed(tree, d, c)
    requires forall p :: p in tree ==> !Misleads(p)
    ensures Shown(parts, shardOf, d, c)
  {
    hide Misleads, Canonical, SkName;
    var p :| ListedAs(tree, d, c, p);
    KeyUnder(p, d);
    var e :| e in parts[shardOf(d)] && e.key == TreeSortKey(p);
    var p' :| Holds(tree, shardOf, p', shardOf(d), e);
    KeyUnder(p', d);
    PartsTell(p, p');
    assert ShownAs(parts, shardOf, d, c, e);
  }

  lemma HarmlessListsRight(parts: seq<seq<Entry>>, tree: map<Path, Value>, shardOf: Path -> nat, d: Path)
    requires Stores(parts, tree, shardOf) && Unslashed(d) && forall p :: p in tree ==> !Misleads(p)
    ensures ListsRight(parts, tree, shardOf, d)
  {
    forall c
      ensures Shown(parts, shardOf, d, c) <==> Listed(tree, d, c)
    {
      if Shown(parts, shardOf, d, c) {
        ShownIsListed(parts, tree, shardOf, d, c);
      }
      if Listed(tree, d, c) {
        ListedIsShown(parts, tree, shardOf, d, c);
      }
    }
  }

  /** Every directory of every table of these paths lists right, wherever the paths hash. */
  ghost predicate AlwaysListsRight(paths: set<Path>) {
    forall parts, tree: map<Path, Value>, shardOf, d: Path ::
      tree.Keys == paths && Stores(parts, tree, shardOf) && Unslashed(d) ==> ListsRight(parts, tree, shardOf, d)
  }

  /** Listings can be trusted exactly when no path misleads. */
  lemma AlwaysListsRightIff(paths: set<Path>)
    requires forall p :: p in paths ==> Canonical(p)
    ensures AlwaysListsRight(paths) <==> forall p :: p in paths ==> !Misleads(p)
  {
    if forall p :: p in paths ==> !Misleads(p) {
      forall parts, tree: map<Path, Value>, shardOf, d: Path
        | tree.Keys == paths && Stores(parts, tree, shardOf) && Unslashed(d)
        ensures ListsRight(parts, tree, shardOf, d)
      {
        HarmlessListsRight(parts, tree, shardOf, d);
      }
    } else {
      var p :| p in paths && Misleads(p);
      var parts, tree, shardOf, d := WrongListing(paths, p);
      CanonicalEnds(d);
    }
  }

  /** A table of these paths with a directory that shows `p`, which is not its child. */
  lemma WrongListing(paths: set<Path>, p: Path)
    returns (parts: seq<seq<Entry>>, tree: map<Path, Value>, shardOf: Path -> nat, d: Path)
    requires p in paths && Misleads(p) && forall q :: q in paths ==> Canonical(q)
    ensures tree.Keys == paths && Stores(parts, tree, shardOf) && Canonical(d) && !ListsRight(parts, tree, shardOf, d)
  {
    hide Canonical, Misleads, TreeSortKey, Ascending;
    tree := map q | q in paths :: if q == p then [1] else [0];
    shardOf := (q: Path) => 0;
    d := MisleadingDir(p);
    var part := OneShard(tree, p);
    parts := InFirst(tree, part);
    NotListed(tree, p, d);
    assert ShownAs(parts, shardOf, d, Child(SkName(TreeSortKey(p)), [1]), Entry(TreeSortKey(p), [1]));
  }

  lemma InFirst(tree: map<Path, Value>, part: seq<Entry>) returns (parts: seq<seq<Entry>>)
    requires Ascending(part) && forall q :: q in tree ==> Canonical(q) && HasKey(part, TreeSortKey(q))
    requires forall e :: e in part ==> exists q :: q in tree && e == Entry(TreeSortKey(q), tree[q])
    ensures Stores(parts, tree, (q: Path) => 0) && parts[0] == part
  {
    hide Canonical, TreeSortKey;
    var shardOf := (q: Path) => 0;
    parts := [part] + seq(NUM_SHARDS - 1, i => []);
    forall i, e | 0 <= i < |parts| && e in parts[i]
      ensures exists q :: Holds(tree, shardOf, q, i, e)
    {
      assert i == 0;
      var q :| q in tree && e == Entry(TreeSortKey(q), tree[q]);
      assert Holds(tree, shardOf, q, i, e);
    }
  }

  lemma NotListed(tree: map<Path, Value>, p: Path, d: Path)
    requires p in tree && tree[p] == [1] && forall q :: q in tree && q != p ==> tree[q] == [0]
    requires d != TreeParent(p)
    ensures !Listed(tree, d, Child(SkName(TreeSortKey(p)), [1]))
  {
    forall r
      ensures !ListedAs(tree, d, Child(SkName(TreeSortKey(p)), [1]), r)
    {
    }
  }

  /** All the entries in one shard, with the given path's entry as it left it. */
  lemma OneShard(tree: map<Path, Value>, p: Path) returns (part: seq<Entry>)
    requires p in tree
    ensures Ascending(part) && Entry(TreeSortKey(p), tree[p]) in part
    ensures forall q :: q in tree ==> HasKey(part, TreeSortKey(q))
    ensures forall e :: e in part ==> exists q :: q in tree && e == Entry(TreeSortKey(q), tree[q])
  {
    hide TreeSortKey, Ascending;
    part := [Entry(TreeSortKey(p), tree[p])];
    SingleAscends(part[0]);
    var left := tree.Keys - {p};
    assert HasKey(part, TreeSortKey(p));
    while left != {}
      invariant left <= tree.Keys && Ascending(part) && Entry(TreeSortKey(p), tree[p]) in part
      invariant forall q :: q in tree && q !in left ==> HasKey(part, TreeSortKey(q))
      invariant forall e :: e in part ==> exists q :: q in tree && e == Entry(TreeSortKey(q), tree[q])
      decreases |left|
    {
      var q :| q in left;
      left := left - {q};
      if !HasKey(part, TreeSortKey(q)) {
        var more := Put(part, Entry(TreeSortKey(q), tree[q]));
        PutAscending(part, Entry(TreeSortKey(q), tree[q]));
        PutIsAdded(part, Entry(TreeSortKey(q), tree[q]));
        part := more;
      }
    }
  }

  lemma SingleAscends(e: Entry)
    ensures Ascending([e])
  {
  }

  lemma {:induction false} PutIsAdded(part: seq<Entry>, e: Entry)
    requires !HasKey(part, e.key)
    ensures forall x :: x in Put(part, e) <==> x == e || x in part
  {
    if part != [] {
      assert part == [part[0]] + part[1..];
      assert part[0] in part;
      PutIsAdded(part[1..], e);
    }
  }

  /** The reserved directory lists right, as the others do, exactly while there is no root entry. */
  lemma ListedIsChildrenIff(tree: map<Path, Value>, d: Path)
    requires forall p :: p in tree ==> Canonical(p)
    ensures (forall c :: Listed(tree, d, c) <==>
                         exists p :: p in tree && c == Child(BaseName(p), tree[p]) && ChildOf(p, d))
       <==> d != ROOT_PARENT || [] !in tree
  {
    forall c
      ensures (exists p :: p in tree && c == Child(BaseName(p), tree[p]) && ChildOf(p, d)) ==> Listed(tree, d, c)
      ensures d != ROOT_PARENT || [] !in tree ==>
                (Listed(tree, d, c) ==> exists p :: p in tree && c == Child(BaseName(p), tree[p]) && ChildOf(p, d))
    {
      if p :| p in tree && c == Child(BaseName(p), tree[p]) && ChildOf(p, d) {
        assert ListedAs(tree, d, c, p);
      }
    }
    if d == ROOT_PARENT && [] in tree {
      var c := Child(BaseName([]), tree[[]]);
      assert ListedAs(tree, d, c, []);
      forall p | p in tree && ChildOf(p, d)
        ensures c != Child(BaseName(p), tree[p])
      {
        CanonicalHasName(p);
      }
      assert Listed(tree, d, c);
      assert !exists p :: p in tree && c == Child(BaseName(p), tree[p]) && ChildOf(p, d);
    }
  }
}
