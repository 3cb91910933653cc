/** Walks over the repository membership graph, which may have cycles and diamonds: group
    statistics, staleness propagation, and depth-limited proxy resolution. */
module RepoGraph {
  import opened Lex
  import opened Sums

  type Name = string
  type Path = string

  datatype Stats = Stats(count: nat, bytes: nat)

  /** `contents` is what a non-proxy repository answers with, path by path; a failing
      lookup is an absent path here, since resolution treats both alike. `root` is the
      statistics entry of its root directory, if there is one. */
  datatype Config =
    | Proxy(format: string, members: seq<Name>)
    | Plain(format: string, root: Option<Stats>, contents: map<Path, string>)

  type Repos = map<Name, Config>

  // --- Group statistics ---

  ghost predicate IsChain(repos: Repos, members: seq<Name>, c: seq<Name>) {
    && c != [] && c[0] in members
    && forall i :: 0 <= i < |c| - 1 ==> Follows(repos, c, i)
  }

  ghost predicate Follows(repos: Repos, c: seq<Name>, i: nat)
    requires i < |c| - 1
  {
    c[i] in repos && repos[c[i]].Proxy? && c[i + 1] in repos[c[i]].members
  }

  ghost predicate ChainTo(repos: Repos, members: seq<Name>, n: Name, c: seq<Name>) {
    IsChain(repos, members, c) && c[|c| - 1] == n
  }

  /** `n` is a member, or a member of a reachable proxy. */
  ghost predicate Reachable(repos: Repos, members: seq<Name>, n: Name) {
    exists c :: ChainTo(repos, members, n, c)
  }

  lemma ReachMember(repos: Repos, members: seq<Name>, n: Name)
    requires n in members
    ensures Reachable(repos, members, n)
  {
    assert ChainTo(repos, members, n, [n]);
  }

  lemma ReachNested(repos: Repos, members: seq<Name>, n: Name, m: Name)
    requires Reachable(repos, members, n) && n in repos && repos[n].Proxy? && m in repos[n].members
    ensures Reachable(repos, members, m)
  {
    var c :| ChainTo(repos, members, n, c);
    var d := c + [m];
    forall i | 0 <= i < |d| - 1
      ensures Follows(repos, d, i)
    {
      assert i < |c| - 1 ==> Follows(repos, c, i);
    }
    assert ChainTo(repos, members, m, d);
  }

  /** Every proxy among these names has all its members among `all`. */
  ghost predicate ClosedInto(repos: Repos, names: set<Name>, all: set<Name>) {
    forall n, m :: n in names && n in repos && repos[n].Proxy? && m in repos[n].members ==> m in all
  }

  lemma {:induction false} ClosedHasChain(repos: Repos, members: seq<Name>, seen: set<Name>, c: seq<Name>)
    requires (forall m :: m in members ==> m in seen) && ClosedInto(repos, seen, seen)
    requires IsChain(repos, members, c)
    ensures c[|c| - 1] in seen
    decreases |c|
  {
    if |c| > 1 {
      var q := c[..|c| - 1];
      forall i | 0 <= i < |q| - 1
        ensures Follows(repos, q, i)
      {
        assert Follows(repos, c, i);
      }
      ClosedHasChain(repos, members, seen, q);
      assert Follows(repos, c, |c| - 2);
    }
  }

  function RootStats(repos: Repos, n: Name): Stats {
    if n in repos && repos[n].Plain? && repos[n].root.Some? then repos[n].root.value else Stats(0, 0)
  }

  /** The root entries of these repositories; a proxy has none of its own. */
  function RootEntries(repos: Repos, names: set<Name>): map<Name, Stats> {
    map n | n in names && n in repos && repos[n].Plain? && repos[n].root.Some? :: repos[n].root.value
  }

  /** What those entries add up to, each name counted once. */
  ghost function TotalOver(repos: Repos, names: set<Name>): (int, int) {
    (Sum(RootEntries(repos, names), (n: Name, s: Stats) => s.count),
     Sum(RootEntries(repos, names), (n: Name, s: Stats) => s.bytes))
  }

  lemma TotalNone(repos: Repos)
    ensures TotalOver(repos, {}) == (0, 0)
  {
    assert RootEntries(repos, {}) == map[];
  }

  lemma TotalAdd(repos: Repos, names: set<Name>, n: Name)
    requires n !in names
    ensures TotalOver(repos, names + {n})
         == (TotalOver(repos, names).0 + RootStats(repos, n).count, TotalOver(repos, names).1 + RootStats(repos, n).bytes)
  {
    var m, more := RootEntries(repos, names), RootEntries(repos, names + {n});
    if n in more {
      assert more == m[n := RootStats(repos, n)];
      SumPut(m, (n: Name, s: Stats) => s.count, n, RootStats(repos, n));
      SumPut(m, (n: Name, s: Stats) => s.bytes, n, RootStats(repos, n));
    } else {
      assert more == m;
    }
  }

  ghost predicate Bounded(repos: Repos, names: set<Name>) {
    ClosedInto(repos, names, names)
  }

  /** The recursion with its shared accumulator and visited set. Everything it newly visits
      is closed under membership by the time it returns, and is counted exactly once. */
  method AggregateProxyStats(repos: Repos, members: seq<Name>, count: nat, bytes: nat, visited: set<Name>,
                             ghost universe: set<Name>, ghost tops: seq<Name>)
    returns (count': nat, bytes': nat, visited': set<Name>)
    requires visited <= universe && Bounded(repos, universe) && forall m :: m in members ==> m in universe
    requires forall m :: m in members ==> Reachable(repos, tops, m)
    requires TotalOver(repos, visited) == (count, bytes)
    ensures visited <= visited' <= universe
    ensures forall m :: m in members ==> m in visited'
    ensures ClosedInto(repos, visited' - visited, visited')
    ensures forall n :: n in visited' - visited ==> Reachable(repos, tops, n)
    ensures TotalOver(repos, visited') == (count', bytes')
    decreases |universe - visited|
  {
    hide TotalOver, Reachable;
    count', bytes', visited' := count, bytes, visited;
    for i := 0 to |members|
      invariant visited <= visited' <= universe
      invariant forall j :: 0 <= j < i ==> members[j] in visited'
      invariant ClosedInto(repos, visited' - visited, visited')
      invariant forall n :: n in visited' - visited ==> Reachable(repos, tops, n)
      invariant TotalOver(repos, visited') == (count', bytes')
    {
      var name := members[i];
      assert name in members;
      if name in visited' {
        continue;
      }
      ghost var before := visited';
      TotalAdd(repos, before, name);
      visited' := visited' + {name};
      if name in repos {
        match repos[name] {
          case Proxy(_, nested) =>
            NestedReach(repos, tops, name);
            Shrinks(universe, visited, before, name);
            count', bytes', visited' := AggregateProxyStats(repos, nested, count', bytes', visited', universe, tops);
          case Plain(_, root, _) =>
            if root.Some? {
              count', bytes' := count' + root.value.count, bytes' + root.value.bytes;
            }
        }
      }
    }
  }

  lemma NestedReach(repos: Repos, tops: seq<Name>, name: Name)
    requires Reachable(repos, tops, name) && name in repos && repos[name].Proxy?
    ensures forall m :: m in repos[name].members ==> Reachable(repos, tops, m)
  {
    forall m | m in repos[name].members
      ensures Reachable(repos, tops, m)
    {
      ReachNested(repos, tops, name, m);
    }
  }

  lemma Shrinks(universe: set<Name>, visited: set<Name>, now: set<Name>, name: Name)
    requires visited <= now <= universe && name in universe && name !in now
    ensures |universe - (now + {name})| < |universe - visited|
  {
    var smaller, larger := universe - (now + {name}), universe - visited;
    assert smaller < larger && name in larger && name !in smaller;
    Subset(smaller, larger);
  }

  lemma {:induction false} Subset(a: set<Name>, b: set<Name>)
    requires a < b
    ensures |a| < |b|
  {
    var x :| x in b && x !in a;
    var rest := b - {x};
    assert a <= rest && |rest| == |b| - 1;
    SubsetLe(a, rest);
  }

  lemma {:induction false} SubsetLe(a: set<Name>, b: set<Name>)
    requires a <= b
    ensures |a| <= |b|
  {
    if a != {} {
      var x :| x in a;
      SubsetLe(a - {x}, b - {x});
    }
  }

  /** All names the configuration mentions; finite, so the recursion ends. */
  function Names(repos: Repos, members: seq<Name>): set<Name> {
    repos.Keys + (set m | m in members) + set n, m | n in repos && repos[n].Proxy? && m in repos[n].members :: m
  }

  lemma ReachableIsNamed(repos: Repos, members: seq<Name>, n: Name)
    requires Reachable(repos, members, n)
    ensures n in Names(repos, members)
  {
    var c :| ChainTo(repos, members, n, c);
    if |c| > 1 {
      assert Follows(repos, c, |c| - 2);
    }
  }

  /** The repositories a group stands for. */
  ghost function ReachableFrom(repos: Repos, members: seq<Name>): (r: set<Name>)
    ensures forall n :: n in r <==> Reachable(repos, members, n)
  {
    assert forall n :: Reachable(repos, members, n) ==> n in Names(repos, members) by {
      forall n | Reachable(repos, members, n)
        ensures n in Names(repos, members)
      {
        ReachableIsNamed(repos, members, n);
      }
    }
    set n | n in Names(repos, members) && Reachable(repos, members, n)
  }

  /** A group's statistics are the root statistics of the repositories reachable from its
      members, each counted once whatever cycles and diamonds lead to it. */
  method GroupStats(repos: Repos, members: seq<Name>) returns (count: nat, bytes: nat)
    ensures (count as int, bytes as int) == TotalOver(repos, ReachableFrom(repos, members))
    ensures var roots := map n | n in ReachableFrom(repos, members) && n in repos && repos[n].Plain? && repos[n].root.Some?
                             :: repos[n].root.value;
            count == Sum(roots, (n: Name, s: Stats) => s.count) && bytes == Sum(roots, (n: Name, s: Stats) => s.bytes)
  {
    hide TotalOver, Reachable;
    TotalNone(repos);
    forall m | m in members
      ensures Reachable(repos, members, m)
    {
      ReachMember(repos, members, m);
    }
    var visited;
    count, bytes, visited := AggregateProxyStats(repos, members, 0, 0, {}, Names(repos, members), members);
    assert visited - {} == visited;
    ClosedHasReachable(repos, members, visited);
    assert visited == ReachableFrom(repos, members);
    TotalIs(repos, visited);
  }

  lemma TotalIs(repos: Repos, names: set<Name>)
    ensures var roots := map n | n in names && n in repos && repos[n].Plain? && repos[n].root.Some? :: repos[n].root.value;
            TotalOver(repos, names) == (Sum(roots, (n: Name, s: Stats) => s.count), Sum(roots, (n: Name, s: Stats) => s.bytes))
  {
  }

  lemma ClosedHasReachable(repos: Repos, members: seq<Name>, seen: set<Name>)
    requires (forall m :: m in members ==> m in seen) && ClosedInto(repos, seen, seen)
    ensures forall n :: Reachable(repos, members, n) ==> n in seen
  {
    forall n | Reachable(repos, members, n)
      ensures n in seen
    {
      var c :| ChainTo(repos, members, n, c);
      ClosedHasChain(repos, members, seen, c);
    }
  }

  // --- Staleness ---

  const MAX_DEPTH: nat := 8

  /** `p` is a proxy of the format that lists `n` as a member. */
  predicate IsParent(repos: Repos, format: string, n: Name, p: Name) {
    p in repos && repos[p].Proxy? && repos[p].format == format && n in repos[p].members
  }

  /** A membership chain of `k` steps up from the source. */
  ghost predicate Climbs(repos: Repos, format: string, source: Name, n: Name, k: nat)
    decreases k
  {
    if k == 0 then n == source
    else exists m :: Climbs(repos, format, source, m, k - 1) && IsParent(repos, format, m, n)
  }

  ghost predicate WithinUp(repos: Repos, format: string, source: Name, n: Name, d: nat) {
    exists k :: 1 <= k <= d && Climbs(repos, format, source, n, k)
  }

  predicate Listed(parents: map<Name, seq<Name>>, n: Name, p: Name) {
    n in parents && p in parents[n]
  }

  method BuildParents(repos: Repos, format: string) returns (parents: map<Name, seq<Name>>)
    ensures forall n, p :: Listed(parents, n, p) <==> IsParent(repos, format, n, p)
  {
    parents := map[];
    var left := repos.Keys;
    while left != {}
      invariant left <= repos.Keys
      invariant forall n, p :: Listed(parents, n, p) <==> IsParent(repos, format, n, p) && p !in left
      decreases left
    {
      var p :| p in left;
      if repos[p].Proxy? && repos[p].format == format {
        parents := AddParent(parents, repos[p].members, p);
      }
      left := left - {p};
    }
  }

  method AddParent(parents: map<Name, seq<Name>>, members: seq<Name>, p: Name) returns (parents': map<Name, seq<Name>>)
    ensures forall n, q :: Listed(parents', n, q) <==> Listed(parents, n, q) || (q == p && n in members)
  {
    parents' := parents;
    for i := 0 to |members|
      invariant forall n, q :: Listed(parents', n, q) <==> Listed(parents, n, q) || (q == p && n in members[..i])
    {
      var m := members[i];
      ghost var before := parents';
      assert members[..i + 1] == members[..i] + [m];
      parents' := parents'[m := (if m in parents' then parents'[m] else []) + [p]];
      assert forall n, q :: Listed(parents', n, q) <==> Listed(before, n, q) || (q == p && n == m);
    }
    assert members[..|members|] == members;
  }

  /** After `d` rounds: everything within `d` steps is visited, and whatever is no longer
      queued has all its parents visited. */
  ghost predicate Rounds(repos: Repos, format: string, source: Name, visited: set<Name>, queue: set<Name>, d: nat) {
    && (forall n :: n in visited <==> WithinUp(repos, format, source, n, d))
    && (forall n :: n in queue ==> n == source || n in visited)
    && (forall n, p :: (n == source || n in visited) && n !in queue && IsParent(repos, format, n, p) ==> p in visited)
  }

  lemma NextRound(repos: Repos, format: string, source: Name, visited: set<Name>, queue: set<Name>, d: nat,
                  visited': set<Name>)
    requires Rounds(repos, format, source, visited, queue, d)
    requires forall p :: p in visited' <==> p in visited || exists n :: n in queue && IsParent(repos, format, n, p)
    ensures Rounds(repos, format, source, visited', visited' - visited, d + 1)
  {
    forall p
      ensures p in visited' <==> WithinUp(repos, format, source, p, d + 1)
    {
      if WithinUp(repos, format, source, p, d + 1) {
        var k :| 1 <= k <= d + 1 && Climbs(repos, format, source, p, k);
        if k <= d {
          assert WithinUp(repos, format, source, p, d);
        } else {
          var m :| Climbs(repos, format, source, m, k - 1) && IsParent(repos, format, m, p);
          assert m == source || m in visited by {
            if k > 1 {
              assert WithinUp(repos, format, source, m, d);
            }
          }
        }
      }
      if p in visited' {
        if p in visited {
          var k :| 1 <= k <= d && Climbs(repos, format, source, p, k);
          assert 1 <= k <= d + 1;
        } else {
          var n :| n in queue && IsParent(repos, format, n, p);
          OneStepUp(repos, format, source, visited, n, p, d);
        }
      }
    }
  }

  lemma OneStepUp(repos: Repos, format: string, source: Name, visited: set<Name>, n: Name, p: Name, d: nat)
    requires forall n :: n in visited <==> WithinUp(repos, format, source, n, d)
    requires (n == source || n in visited) && IsParent(repos, format, n, p)
    ensures WithinUp(repos, format, source, p, d + 1)
  {
    if n == source {
      assert Climbs(repos, format, source, n, 0);
      assert Climbs(repos, format, source, p, 1);
    } else {
      var k :| 1 <= k <= d && Climbs(repos, format, source, n, k);
      assert Climbs(repos, format, source, p, k + 1);
    }
  }

  /** An empty queue means nothing further up exists. */
  lemma {:induction false} Saturated(repos: Repos, format: string, source: Name, visited: set<Name>, d: nat, e: nat)
    requires Rounds(repos, format, source, visited, {}, d) && d <= e
    ensures forall n :: n in visited <==> WithinUp(repos, format, source, n, e)
    decreases e - d
  {
    if d < e {
      NextRound(repos, format, source, visited, {}, d, visited);
      assert visited - visited == {};
      Saturated(repos, format, source, visited, d + 1, e);
    }
  }

  /** The proxies flagged are exactly those of the format within eight membership steps
      above the source, cycles included; flags already present stay. */
  method PropagateStaleness(repos: Repos, source: Name, format: string, flags: set<Name>)
    returns (flags': set<Name>)
    ensures forall n :: n in flags' <==> n in flags || WithinUp(repos, format, source, n, 8)
  {
    hide WithinUp, IsParent;
    var parents := BuildParents(repos, format);
    var visited: set<Name> := {};
    var queue: seq<Name> := [source];
    var depth := 0;
    flags' := flags;
    StartRounds(repos, format, source);
    while queue != [] && depth < MAX_DEPTH
      invariant depth <= MAX_DEPTH
      invariant Rounds(repos, format, source, visited, Elements(queue), depth)
      invariant flags' == flags + visited
      decreases MAX_DEPTH - depth
    {
      ghost var level, before := queue, visited;
      var next: seq<Name> := [];
      for i := 0 to |queue|
        invariant Elements(next) == visited - before && before <= visited
        invariant forall p :: p in visited <==>
                    p in before || exists n :: n in level[..i] && IsParent(repos, format, n, p)
        invariant flags' == flags + visited
      {
        var name := queue[i];
        ghost var entry := visited;
        assert level[..i + 1] == level[..i] + [name];
        assert forall p :: Listed(parents, name, p) <==> IsParent(repos, format, name, p);
        if name in parents {
          visited, next, flags' := VisitParents(parents[name], visited, next, flags');
        }
        assert forall p :: p in visited <==> p in entry || IsParent(repos, format, name, p);
      }
      assert level[..|level|] == level;
      NextRound(repos, format, source, before, Elements(level), depth, visited);
      queue := next;
      depth := depth + 1;
    }
    if queue == [] {
      Saturated(repos, format, source, visited, depth, MAX_DEPTH);
    }
  }

  ghost function Elements(s: seq<Name>): set<Name> {
    set n | n in s
  }

  lemma StartRounds(repos: Repos, format: string, source: Name)
    ensures Rounds(repos, format, source, {}, Elements([source]), 0)
  {
  }

  method VisitParents(parents: seq<Name>, visited: set<Name>, queue: seq<Name>, flags: set<Name>)
    returns (visited': set<Name>, queue': seq<Name>, flags': set<Name>)
    ensures visited' == visited + Elements(parents)
    ensures Elements(queue') == Elements(queue) + (visited' - visited)
    ensures flags' == flags + (visited' - visited)
  {
    visited', queue', flags' := visited, queue, flags;
    for i := 0 to |parents|
      invariant visited' == visited + Elements(parents[..i])
      invariant Elements(queue') == Elements(queue) + (visited' - visited)
      invariant flags' == flags + (visited' - visited)
    {
      assert parents[..i + 1] == parents[..i] + [parents[i]];
      if parents[i] !in visited' {
        assert Elements(queue' + [parents[i]]) == Elements(queue') + {parents[i]};
        visited', queue', flags' := visited' + {parents[i]}, queue' + [parents[i]], flags' + {parents[i]};
      }
    }
    assert parents[..|parents|] == parents;
  }

  // --- Resolution ---

  const MAX_PROXY_DEPTH: nat := 8

  /** `n` can answer for the path with at most `budget` proxies on the way. */
  ghost predicate CanAnswer(repos: Repos, n: Name, path: Path, budget: nat)
    decreases budget
  {
    n in repos
    && match repos[n]
       case Plain(_, _, contents) => path in contents
       case Proxy(_, members) => budget > 0 && exists m :: m in members && CanAnswer(repos, m, path, budget - 1)
  }

  /** `answer` is what the first member able to answer gives. */
  ghost predicate FirstAnswer(repos: Repos, members: seq<Name>, path: Path, budget: nat, answer: string)
    decreases budget
  {
    exists i :: 0 <= i < |members|
                && (forall j :: 0 <= j < i ==> !CanAnswer(repos, members[j], path, budget))
                && Gives(repos, members[i], path, budget, answer)
  }

  ghost predicate Gives(repos: Repos, n: Name, path: Path, budget: nat, answer: string)
    decreases budget, 1
  {
    n in repos
    && match repos[n]
       case Plain(_, _, contents) => path in contents && contents[path] == answer
       case Proxy(_, members) => budget > 0 && FirstAnswer(repos, members, path, budget - 1, answer)
  }

  /** `get_inner` and `head_inner` of a proxy at `depth`: members in order, each resolved
      one level deeper, the first hit wins. */
  method GetInner(repos: Repos, members: seq<Name>, path: Path, depth: nat) returns (r: Option<string>)
    requires depth <= MAX_PROXY_DEPTH + 1
    ensures var budget := MAX_PROXY_DEPTH + 1 - depth;
            if r.Some? then budget > 0 && FirstAnswer(repos, members, path, budget - 1, r.value)
            else budget > 0 ==> forall m :: m in members ==> !CanAnswer(repos, m, path, budget - 1)
    decreases MAX_PROXY_DEPTH + 1 - depth
  {
    if depth > MAX_PROXY_DEPTH {
      return None;
    }
    for i := 0 to |members|
      invariant forall j :: 0 <= j < i ==> !CanAnswer(repos, members[j], path, MAX_PROXY_DEPTH - depth)
    {
      if members[i] !in repos {
        continue;
      }
      match repos[members[i]] {
        case Plain(_, _, contents) =>
          if path in contents {
            return Some(contents[path]);
          }
        case Proxy(_, nested) =>
          var inner := GetInner(repos, nested, path, depth + 1);
          if inner.Some? {
            return inner;
          }
      }
    }
    return None;
  }

  /** A chain of proxies ending at a repository that holds the path. */
  ghost predicate Leads(repos: Repos, path: Path, c: seq<Name>) {
    && c != [] && (forall i :: 0 <= i < |c| - 1 ==> Follows(repos, c, i))
    && c[|c| - 1] in repos && repos[c[|c| - 1]].Plain? && path in repos[c[|c| - 1]].contents
  }

  lemma ChainTail(repos: Repos, path: Path, c: seq<Name>)
    requires Leads(repos, path, c) && |c| > 1
    ensures Leads(repos, path, c[1..]) && Follows(repos, c, 0)
  {
    var rest := c[1..];
    forall i | 0 <= i < |rest| - 1
      ensures Follows(repos, rest, i)
    {
      assert Follows(repos, c, i + 1);
    }
  }

  lemma ChainCons(repos: Repos, path: Path, n: Name, rest: seq<Name>)
    requires Leads(repos, path, rest) && Follows(repos, [n] + rest, 0)
    ensures Leads(repos, path, [n] + rest)
  {
    var c := [n] + rest;
    forall i | 0 <= i < |c| - 1
      ensures Follows(repos, c, i)
    {
      assert i > 0 ==> Follows(repos, rest, i - 1);
    }
  }

  /** Being able to answer is having such a chain with few enough proxies. */
  lemma {:induction false} AnswerIffChain(repos: Repos, n: Name, path: Path, budget: nat)
    ensures CanAnswer(repos, n, path, budget) <==> exists c :: Leads(repos, path, c) && c[0] == n && |c| - 1 <= budget
    decreases budget
  {
    if c :| Leads(repos, path, c) && c[0] == n && |c| - 1 <= budget {
      if |c| > 1 {
        ChainTail(repos, path, c);
        AnswerIffChain(repos, c[1], path, budget - 1);
      }
    }
    if CanAnswer(repos, n, path, budget) {
      if repos[n].Plain? {
        assert Leads(repos, path, [n]);
      } else {
        var m :| m in repos[n].members && CanAnswer(repos, m, path, budget - 1);
        AnswerIffChain(repos, m, path, budget - 1);
        var rest :| Leads(repos, path, rest) && rest[0] == m && |rest| - 1 <= budget - 1;
        ChainCons(repos, path, n, rest);
      }
    }
  }

  lemma {:induction false} GivesMeansCan(repos: Repos, n: Name, path: Path, budget: nat, answer: string)
    requires Gives(repos, n, path, budget, answer)
    ensures CanAnswer(repos, n, path, budget)
    decreases budget
  {
    if repos[n].Proxy? {
      var members := repos[n].members;
      var i :| 0 <= i < |members| && Gives(repos, members[i], path, budget - 1, answer);
      GivesMeansCan(repos, members[i], path, budget - 1, answer);
      assert members[i] in members;
    }
  }

  /** A chain from `n` with few enough proxies, and what the repository at its end holds. */
  ghost predicate Supplies(repos: Repos, path: Path, n: Name, budget: nat, c: seq<Name>, answer: string) {
    Leads(repos, path, c) && c[0] == n && |c| - 1 <= budget && repos[c[|c| - 1]].contents[path] == answer
  }

  lemma {:induction false} GivesSupplied(repos: Repos, n: Name, path: Path, budget: nat, answer: string) returns (c: seq<Name>)
    requires Gives(repos, n, path, budget, answer)
    ensures Supplies(repos, path, n, budget, c, answer)
    decreases budget
  {
    if repos[n].Plain? {
      c := [n];
    } else {
      var members := repos[n].members;
      var i :| 0 <= i < |members| && Gives(repos, members[i], path, budget - 1, answer);
      var rest := GivesSupplied(repos, members[i], path, budget - 1, answer);
      ChainCons(repos, path, n, rest);
      c := [n] + rest;
    }
  }

  /** The answer comes from the end of a chain that begins at the first member with a short enough
      chain at all. */
  lemma AnswerIsSupplied(repos: Repos, members: seq<Name>, path: Path, budget: nat, answer: string)
    requires FirstAnswer(repos, members, path, budget, answer)
    ensures exists i, c :: && 0 <= i < |members| && Supplies(repos, path, members[i], budget, c, answer)
                           && forall j, d :: 0 <= j < i && Leads(repos, path, d) && d[0] == members[j] ==> |d| - 1 > budget
  {
    var i :| 0 <= i < |members|
             && (forall j :: 0 <= j < i ==> !CanAnswer(repos, members[j], path, budget))
             && Gives(repos, members[i], path, budget, answer);
    var c := GivesSupplied(repos, members[i], path, budget, answer);
    forall j, d | 0 <= j < i && Leads(repos, path, d) && d[0] == members[j]
      ensures |d| - 1 > budget
    {
      AnswerIffChain(repos, members[j], path, budget);
    }
  }

  /** A top-level proxy finds the path exactly when some chain below it, with at most eight
      further proxies, ends at a repository holding it. */
  method Resolve(repos: Repos, members: seq<Name>, path: Path) returns (r: Option<string>)
    ensures r.Some? <==> exists c :: Leads(repos, path, c) && c[0] in members && |c| - 1 <= 8
    ensures r.Some? ==> FirstAnswer(repos, members, path, MAX_PROXY_DEPTH, r.value)
    ensures r.Some? ==>
              exists i, c :: && 0 <= i < |members| && Supplies(repos, path, members[i], 8, c, r.value)
                             && forall j, d :: 0 <= j < i && Leads(repos, path, d) && d[0] == members[j] ==>
                                                 |d| - 1 > 8
  {
    hide Supplies, Leads, FirstAnswer;
    r := GetInner(repos, members, path, 0);
    if r.Some? {
      AnswerIsSupplied(repos, members, path, MAX_PROXY_DEPTH, r.value);
    }
    FoundIffChain(repos, members, path, r);
  }

  lemma FoundIffChain(repos: Repos, members: seq<Name>, path: Path, r: Option<string>)
    requires if r.Some? then FirstAnswer(repos, members, path, MAX_PROXY_DEPTH, r.value)
             else forall m :: m in members ==> !CanAnswer(repos, m, path, MAX_PROXY_DEPTH)
    ensures r.Some? <==> exists c :: Leads(repos, path, c) && c[0] in members && |c| - 1 <= MAX_PROXY_DEPTH
  {
    if r.Some? {
      var i :| 0 <= i < |members| && Gives(repos, members[i], path, MAX_PROXY_DEPTH, r.value);
      GivesMeansCan(repos, members[i], path, MAX_PROXY_DEPTH, r.value);
      AnswerIffChain(repos, members[i], path, MAX_PROXY_DEPTH);
    }
    if c :| Leads(repos, path, c) && c[0] in members && |c| - 1 <= MAX_PROXY_DEPTH {
      AnswerIffChain(repos, c[0], path, MAX_PROXY_DEPTH);
    }
  }
}
