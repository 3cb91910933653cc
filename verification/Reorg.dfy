/** Planning against a registry and executing the plan: what the `move` and `superseded`
    action groups do to the tags, and what a second planning run finds. */
module Reorg {
  import opened Lex
  import opened Planner

  // --- Planning ---

  /** The repository listings agree with the registry, each tag once. */
  ghost predicate ListsRegistry(reg: Registry, inventories: map<Repo, seq<(Image, Tag)>>) {
    forall repo :: repo in inventories ==>
      Distinct(inventories[repo])
      && forall image, tag :: (image, tag) in inventories[repo] <==> Ref(repo, image, tag) in reg
  }

  predicate IsMove(reg: Registry, group: Group, scan: seq<Repo>, m: PlannedMove) {
    && m.source in reg && m.source.repo in scan
    && Misplaced(group, m.source.repo, m.source.image, m.source.tag)
    && m == MoveFor(group, m.source)
  }

  /** The report's test: only two known dates can prove the source newer. */
  predicate ProvablyNewer(own: Option<nat>, winner: Option<nat>) {
    own.Some? && winner.Some? && own.value > winner.value
  }

  /** The copy that stays instead of a dropped move's source. */
  ghost predicate Winner(reg: Registry, kept: seq<PlannedMove>, m: PlannedMove, w: Copy) {
    if Target(m) in reg then w == reg[Target(m)]
    else exists k :: k in kept && Target(k) == Target(m) && k.source in reg && w == reg[k.source]
  }

  ghost predicate DroppedFor(reg: Registry, group: Group, scan: seq<Repo>, kept: seq<PlannedMove>,
                             m: PlannedMove, w: Copy) {
    IsMove(reg, group, scan, m) && m !in kept && Winner(reg, kept, m, w)
  }

  /** A dropped move with the dates of its own copy and of the one that stays. */
  ghost predicate Dropped(reg: Registry, group: Group, scan: seq<Repo>, kept: seq<PlannedMove>, x: Superseded) {
    exists w :: DroppedFor(reg, group, scan, kept, x.move, w)
                && x.ownBuilt == reg[x.move.source].built && x.winnerBuilt == w.built
  }

  ghost predicate Deletable(reg: Registry, group: Group, scan: seq<Repo>, kept: seq<PlannedMove>, r: Ref) {
    exists m, w :: DroppedFor(reg, group, scan, kept, m, w) && m.source == r && !ProvablyNewer(reg[r].built, w.built)
  }

  ghost predicate NeedsReview(reg: Registry, group: Group, scan: seq<Repo>, kept: seq<PlannedMove>, x: Superseded) {
    Dropped(reg, group, scan, kept, x) && ProvablyNewer(x.ownBuilt, x.winnerBuilt)
  }

  ghost predicate OneRival(kept: seq<PlannedMove>) {
    forall i, j :: 0 <= i < j < |kept| ==> Target(kept[i]) != Target(kept[j])
  }

  ghost predicate KeepsMoves(reg: Registry, group: Group, scan: seq<Repo>, kept: seq<PlannedMove>) {
    && (forall m :: m in kept ==> IsMove(reg, group, scan, m) && Target(m) !in reg)
    && OneRival(kept)
  }

  /** Towards every free target some move is kept, and none of its rivals is provably newer. */
  ghost predicate KeepsNewest(reg: Registry, group: Group, scan: seq<Repo>, kept: seq<PlannedMove>) {
    forall m :: Contends(reg, group, scan, m) ==> exists k :: k in kept && NewestRival(reg, m, k)
  }

  predicate Contends(reg: Registry, group: Group, scan: seq<Repo>, m: PlannedMove) {
    IsMove(reg, group, scan, m) && Target(m) !in reg
  }

  /** What a plan is, as a fact about the registry it was made for. */
  ghost predicate Planned(reg: Registry, group: Group, scan: seq<Repo>,
                          kept: seq<PlannedMove>, deletes: seq<Ref>, review: seq<Superseded>) {
    && KeepsMoves(reg, group, scan, kept) && KeepsNewest(reg, group, scan, kept)
    && (forall r :: r in deletes <==> Deletable(reg, group, scan, kept, r))
    && (forall x :: x in review <==> NeedsReview(reg, group, scan, kept, x))
  }

  ghost predicate NewestRival(reg: Registry, m: PlannedMove, k: PlannedMove) {
    && Target(k) == Target(m) && k.source in reg && m.source in reg
    && !ProvablyNewer(reg[m.source].built, reg[k.source].built)
  }

  lemma NewestIsKept(reg: Registry, group: Group, scan: seq<Repo>, kept: seq<PlannedMove>, m: PlannedMove)
    returns (k: PlannedMove)
    requires KeepsNewest(reg, group, scan, kept) && IsMove(reg, group, scan, m) && Target(m) !in reg
    ensures k in kept && NewestRival(reg, m, k)
  {
    hide IsMove, NewestRival;
    assert Contends(reg, group, scan, m);
    k :| k in kept && NewestRival(reg, m, k);
  }

  /** The date on file for a copy is its build date. */
  predicate TrueDate(reg: Registry, ts: Dates, r: Ref) {
    r in reg && DateOf(ts, r) == reg[r].built
  }

  /** Whether the destination already holds the tag: from its listing if it was scanned,
      else by asking the registry. */
  predicate Holds(reg: Registry, inventories: map<Repo, seq<(Image, Tag)>>, t: Ref) {
    if t.repo in inventories then (t.image, t.tag) in inventories[t.repo] else t in reg
  }

  /** The moves of all scanned repositories, in scan order. A repository listed twice is
      scanned twice. */
  function ScanMoves(group: Group, scan: seq<Repo>, inventories: map<Repo, seq<(Image, Tag)>>): seq<PlannedMove>
    requires forall r :: r in scan ==> r in inventories
  {
    if scan == [] then []
    else
      var last := scan[|scan| - 1];
      assert last in scan;
      ScanMoves(group, scan[..|scan| - 1], inventories) + GroupMoves(group, inventories[last], last)
  }

  lemma {:induction false} ScanMovesMembers(group: Group, scan: seq<Repo>, inventories: map<Repo, seq<(Image, Tag)>>,
                                            reg: Registry)
    requires ListsRegistry(reg, inventories) && forall r :: r in scan ==> r in inventories
    ensures forall m :: m in ScanMoves(group, scan, inventories) <==> IsMove(reg, group, scan, m)
    ensures Distinct(scan) ==> Distinct(ScanMoves(group, scan, inventories))
  {
    if scan != [] {
      var init, last := scan[..|scan| - 1], scan[|scan| - 1];
      assert scan == init + [last];
      ScanMovesMembers(group, init, inventories, reg);
      GroupMovesMembers(group, inventories[last], last);
      hide Misplaced, MoveFor;
      assert Distinct(scan) ==> last !in init;
      DistinctConcat(ScanMoves(group, init, inventories), GroupMoves(group, inventories[last], last));
    }
  }

  method CollectMoves(group: Group, scan: seq<Repo>, inventories: map<Repo, seq<(Image, Tag)>>)
    returns (moves: seq<PlannedMove>)
    requires forall r :: r in scan ==> r in inventories
    ensures moves == ScanMoves(group, scan, inventories)
  {
    moves := [];
    for i := 0 to |scan|
      invariant moves == ScanMoves(group, scan[..i], inventories)
    {
      var plan := BuildGroupPlan(group, inventories[scan[i]], scan[i]);
      assert scan[..i + 1][..i] == scan[..i];
      moves := moves + plan.moves;
    }
    assert scan[..|scan|] == scan;
  }

  lemma DistinctConcat(a: seq<PlannedMove>, b: seq<PlannedMove>)
    ensures Distinct(a) && Distinct(b) && (forall m :: m in b ==> m !in a) ==> Distinct(a + b)
  {
    if Distinct(a) && Distinct(b) && forall m :: m in b ==> m !in a {
      forall i, j | 0 <= i < j < |a + b|
        ensures (a + b)[i] != (a + b)[j]
      {
        if i < |a| <= j {
          assert (a + b)[j] == b[j - |a|] && b[j - |a|] in b;
          assert a[i] in a;
        }
      }
    }
  }

  method FindPresent(moves: seq<PlannedMove>, inventories: map<Repo, seq<(Image, Tag)>>, reg: Registry)
    returns (present: set<Ref>)
    requires ListsRegistry(reg, inventories)
    ensures forall t :: t in present <==> t in reg && exists m :: m in moves && Target(m) == t
  {
    present := {};
    for i := 0 to |moves|
      invariant forall t :: t in present <==> t in reg && exists m :: m in moves[..i] && Target(m) == t
    {
      assert moves[..i + 1] == moves[..i] + [moves[i]];
      if Holds(reg, inventories, Target(moves[i])) {
        present := present + {Target(moves[i])};
      }
    }
    assert moves[..|moves|] == moves;
  }

  /** Build dates, looked up only for tags in a collision. */
  method ResolveDates(moves: seq<PlannedMove>, present: set<Ref>, reg: Registry) returns (ts: Dates)
    requires forall m :: m in moves ==> m.source in reg
    requires forall t :: t in present ==> t in reg
    ensures forall m :: m in moves && (Target(m) in present || |Rivals(moves, Target(m))| > 1) ==>
              TrueDate(reg, ts, m.source)
    ensures forall t :: t in present ==> TrueDate(reg, ts, t)
  {
    ts := map[];
    for i := 0 to |moves|
      invariant forall r :: r in ts ==> r in reg && ts[r] == reg[r].built
      invariant forall m :: m in moves[..i] && (Target(m) in present || |Rivals(moves, Target(m))| > 1) ==> m.source in ts
    {
      assert moves[..i + 1] == moves[..i] + [moves[i]];
      var m := moves[i];
      if Target(m) in present || |Rivals(moves, Target(m))| > 1 {
        ts := ts[m.source := reg[m.source].built];
      }
    }
    assert moves[..|moves|] == moves;
    ts := ts + map t | t in present :: reg[t].built;
  }

  /** What the resolver is told: the targets already held, and the true dates of every copy in
      a collision. */
  ghost predicate CollisionData(reg: Registry, moves: seq<PlannedMove>, present: set<Ref>, ts: Dates) {
    && (forall t :: t in present <==> t in reg && exists m :: m in moves && Target(m) == t)
    && (forall m :: m in moves && (Target(m) in present || |Rivals(moves, Target(m))| > 1) ==>
                      TrueDate(reg, ts, m.source))
    && (forall t :: t in present ==> TrueDate(reg, ts, t))
  }

  /** What the planning half of `run` makes of a list of moves, whatever list that is. */
  ghost predicate PlansWith(reg: Registry, moves: seq<PlannedMove>, present: set<Ref>, ts: Dates,
                            superseded: seq<Superseded>, kept: seq<PlannedMove>, deletes: seq<Ref>,
                            review: seq<Superseded>) {
    && CollisionData(reg, moves, present, ts)
    && (forall m :: m in kept <==> IsKept(m, moves, present, ts))
    && (forall x :: x in superseded <==> IsDropped(x, moves, present, ts))
    && OneRival(kept)
    && (forall r :: r in deletes <==> MayDelete(superseded, r))
    && (forall x :: x in review <==> x in superseded && ProvablyNewer(x.ownBuilt, x.winnerBuilt))
  }

  ghost predicate MayDelete(superseded: seq<Superseded>, r: Ref) {
    exists x :: x in superseded && x.move.source == r && !ProvablyNewer(x.ownBuilt, x.winnerBuilt)
  }

  ghost predicate PlansFrom(reg: Registry, moves: seq<PlannedMove>, kept: seq<PlannedMove>, deletes: seq<Ref>,
                            review: seq<Superseded>) {
    exists present, ts, superseded :: PlansWith(reg, moves, present, ts, superseded, kept, deletes, review)
  }

  /** The planning half of `run` for one group of move and leave rules. */
  method PlanRun(reg: Registry, group: Group, scan: seq<Repo>, inventories: map<Repo, seq<(Image, Tag)>>)
    returns (kept: seq<PlannedMove>, deletes: seq<Ref>, review: seq<Superseded>)
    requires ListsRegistry(reg, inventories) && forall r :: r in scan ==> r in inventories
    requires OnlyMovesAndLeaves(group)
    ensures PlansFrom(reg, ScanMoves(group, scan, inventories), kept, deletes, review)
    ensures Distinct(scan) ==> Planned(reg, group, scan, kept, deletes, review)
    ensures Distinct(scan) ==>
              forall r :: r in deletes <==>
                exists m, w :: && DroppedFor(reg, group, scan, kept, m, w) && m.source == r
                               && (reg[r].built.Some? && w.built.Some? ==> reg[r].built.value <= w.built.value)
    ensures Distinct(scan) ==>
              forall x :: x in review <==>
                && x.ownBuilt.Some? && x.winnerBuilt.Some? && x.ownBuilt.value > x.winnerBuilt.value
                && exists w :: && DroppedFor(reg, group, scan, kept, x.move, w)
                               && reg[x.move.source].built == x.ownBuilt && w.built == x.winnerBuilt
  {
    hide ListsRegistry, IsKept, IsDropped, ProvablyNewer, Planned, Rivals, TrueDate, IsMove;
    var moves := CollectMoves(group, scan, inventories);
    ScanMovesMembers(group, scan, inventories, reg);
    MovesHaveSources(reg, group, scan, moves);
    var present := FindPresent(moves, inventories, reg);
    var ts := ResolveDates(moves, present, reg);
    var superseded;
    kept, superseded := ResolveMoveCollisions(moves, present, ts);
    deletes, review := SplitSuperseded(superseded);
    assert PlansWith(reg, moves, present, ts, superseded, kept, deletes, review);
    if Distinct(scan) {
      PlanIsPlanned(reg, group, scan, moves, present, ts, superseded, kept, deletes, review);
      PlanInDates(reg, group, scan, kept, deletes, review);
    }
  }

  /** A superseded copy is reviewed when both dates are known and its own is the later, and may be
      deleted otherwise. */
  lemma PlanInDates(reg: Registry, group: Group, scan: seq<Repo>, kept: seq<PlannedMove>, deletes: seq<Ref>,
                    review: seq<Superseded>)
    requires Planned(reg, group, scan, kept, deletes, review)
    ensures forall r :: r in deletes <==>
              exists m, w :: && DroppedFor(reg, group, scan, kept, m, w) && m.source == r
                             && (reg[r].built.Some? && w.built.Some? ==> reg[r].built.value <= w.built.value)
    ensures forall x :: x in review <==>
              && x.ownBuilt.Some? && x.winnerBuilt.Some? && x.ownBuilt.value > x.winnerBuilt.value
              && exists w :: && DroppedFor(reg, group, scan, kept, x.move, w)
                             && reg[x.move.source].built == x.ownBuilt && w.built == x.winnerBuilt
  {
    hide KeepsMoves, KeepsNewest, IsMove, Winner;
  }

  lemma MovesHaveSources(reg: Registry, group: Group, scan: seq<Repo>, moves: seq<PlannedMove>)
    requires forall m :: m in moves <==> IsMove(reg, group, scan, m)
    ensures forall m :: m in moves ==> m.source in reg
  {
  }

  /** A superseded copy is deleted unless it is provably newer than the one that stays. */
  method SplitSuperseded(superseded: seq<Superseded>) returns (deletes: seq<Ref>, review: seq<Superseded>)
    ensures forall r :: r in deletes <==> MayDelete(superseded, r)
    ensures forall x :: x in review <==> x in superseded && ProvablyNewer(x.ownBuilt, x.winnerBuilt)
  {
    deletes, review := [], [];
    for i := 0 to |superseded|
      invariant forall r :: r in deletes <==> MayDelete(superseded[..i], r)
      invariant forall x :: x in review <==> x in superseded[..i] && ProvablyNewer(x.ownBuilt, x.winnerBuilt)
    {
      var x := superseded[i];
      assert superseded[..i + 1] == superseded[..i] + [x];
      if ProvablyNewer(x.ownBuilt, x.winnerBuilt) {
        review := review + [x];
      } else {
        deletes := deletes + [x.move.source];
      }
    }
    assert superseded[..|superseded|] == superseded;
  }

  /** The resolver's index-level outcome, read as facts about the registry. */
  lemma PlanIsPlanned(reg: Registry, group: Group, scan: seq<Repo>, moves: seq<PlannedMove>, present: set<Ref>, ts: Dates,
                      superseded: seq<Superseded>, kept: seq<PlannedMove>, deletes: seq<Ref>, review: seq<Superseded>)
    requires Distinct(moves) && forall m :: m in moves <==> IsMove(reg, group, scan, m)
    requires PlansWith(reg, moves, present, ts, superseded, kept, deletes, review)
    ensures Planned(reg, group, scan, kept, deletes, review)
  {
    hide IsMove, IsKept, IsDropped, Dropped, Deletable, NewestRival, ProvablyNewer, Rivals, TrueDate, Target, MayDelete;
    forall m | m in kept
      ensures IsMove(reg, group, scan, m) && Target(m) !in reg
    {
      KeptIsMove(reg, group, scan, moves, present, ts, m);
    }
    forall m | Contends(reg, group, scan, m)
      ensures exists k :: k in kept && NewestRival(reg, m, k)
    {
      var k := KeptRival(reg, group, scan, moves, present, ts, kept, m);
    }
    forall x
      ensures x in superseded <==> Dropped(reg, group, scan, kept, x)
    {
      DropEvidence(reg, group, scan, moves, present, ts, kept, x);
    }
    DeletesAreDeletable(reg, group, scan, kept, superseded, deletes);
  }

  lemma KeptIsMove(reg: Registry, group: Group, scan: seq<Repo>, moves: seq<PlannedMove>, present: set<Ref>, ts: Dates,
                   m: PlannedMove)
    requires forall m :: m in moves <==> IsMove(reg, group, scan, m)
    requires forall t :: t in present <==> t in reg && exists m :: m in moves && Target(m) == t
    requires IsKept(m, moves, present, ts)
    ensures IsMove(reg, group, scan, m) && Target(m) !in reg
  {
    var c := Rivals(moves, Target(m));
    RivalsMembers(moves, Target(m));
    assert c[Newest(c, ts, |c|)] in c;
  }

  lemma DeletesAreDeletable(reg: Registry, group: Group, scan: seq<Repo>, kept: seq<PlannedMove>,
                            superseded: seq<Superseded>, deletes: seq<Ref>)
    requires forall x :: x in superseded <==> Dropped(reg, group, scan, kept, x)
    requires forall r :: r in deletes <==> MayDelete(superseded, r)
    ensures forall r :: r in deletes <==> Deletable(reg, group, scan, kept, r)
  {
    forall r
      ensures r in deletes <==> Deletable(reg, group, scan, kept, r)
    {
      if Deletable(reg, group, scan, kept, r) {
        var m, w :| DroppedFor(reg, group, scan, kept, m, w) && m.source == r && !ProvablyNewer(reg[r].built, w.built);
        var x := Superseded(m, reg[r].built, w.built);
        assert Dropped(reg, group, scan, kept, x);
        assert x in superseded;
      }
      if r in deletes {
        var x :| x in superseded && x.move.source == r && !ProvablyNewer(x.ownBuilt, x.winnerBuilt);
        var w :| DroppedFor(reg, group, scan, kept, x.move, w)
                 && x.ownBuilt == reg[x.move.source].built && x.winnerBuilt == w.built;
      }
    }
  }

  lemma KeptRival(reg: Registry, group: Group, scan: seq<Repo>, moves: seq<PlannedMove>, present: set<Ref>, ts: Dates,
                  kept: seq<PlannedMove>, m: PlannedMove) returns (k: PlannedMove)
    requires Distinct(moves) && forall m :: m in moves <==> IsMove(reg, group, scan, m)
    requires forall t :: t in present ==> t in reg
    requires forall m :: m in moves && |Rivals(moves, Target(m))| > 1 ==> TrueDate(reg, ts, m.source)
    requires forall m :: m in kept <==> IsKept(m, moves, present, ts)
    requires m in moves && Target(m) !in reg
    ensures k in kept && NewestRival(reg, m, k)
    ensures var c := Rivals(moves, Target(m)); c != [] && k == c[Newest(c, ts, |c|)]
  {
    var t := Target(m);
    RivalsMembers(moves, t);
    var c := Rivals(moves, t);
    var i :| 0 <= i < |c| && c[i] == m;
    k := c[Newest(c, ts, |c|)];
    assert k in c;
    assert IsKept(k, moves, present, ts);
    assert AgeOr(DateOf(ts, c[i].source)) <= AgeOr(DateOf(ts, k.source));
  }

  lemma DropEvidence(reg: Registry, group: Group, scan: seq<Repo>, moves: seq<PlannedMove>, present: set<Ref>, ts: Dates,
                     kept: seq<PlannedMove>, x: Superseded)
    requires Distinct(moves) && forall m :: m in moves <==> IsMove(reg, group, scan, m)
    requires forall t :: t in present <==> t in reg && exists m :: m in moves && Target(m) == t
    requires forall m :: m in moves && (Target(m) in present || |Rivals(moves, Target(m))| > 1) ==>
               TrueDate(reg, ts, m.source)
    requires forall t :: t in present ==> TrueDate(reg, ts, t)
    requires forall m :: m in kept <==> IsKept(m, moves, present, ts)
    requires OneRival(kept)
    ensures IsDropped(x, moves, present, ts) <==> Dropped(reg, group, scan, kept, x)
  {
    var t := Target(x.move);
    var c := Rivals(moves, t);
    RivalsMembers(moves, t);
    if c != [] {
      var n := Newest(c, ts, |c|);
      assert c[n] in c;
      assert t in present <==> t in reg;
      var winner := if t in present then t else c[n].source;
      if x.move in moves {
        var i :| 0 <= i < |c| && c[i] == x.move;
        assert x.move in kept <==> Survives(c, i, t, present, ts);
        if !Survives(c, i, t, present, ts) {
          assert DateOf(ts, x.move.source) == reg[x.move.source].built;
          assert DateOf(ts, winner) == reg[winner].built;
          OnlyWinner(reg, kept, x.move, c[n], t, present);
        }
        forall j | 0 <= j < |c| && c[j] == x.move
          ensures j == i
        {
        }
      }
    }
  }

  lemma OnlyWinner(reg: Registry, kept: seq<PlannedMove>, m: PlannedMove, k: PlannedMove, t: Ref, present: set<Ref>)
    requires OneRival(kept) && t == Target(m) == Target(k) && k.source in reg
    requires t in present <==> t in reg
    requires t !in present ==> k in kept
    ensures forall w :: Winner(reg, kept, m, w) <==> w == reg[if t in present then t else k.source]
  {
    if t !in present {
      var i :| 0 <= i < |kept| && kept[i] == k;
      forall k' | k' in kept && Target(k') == t
        ensures k' == k
      {
        var j :| 0 <= j < |kept| && kept[j] == k';
      }
    }
  }

  // --- Execution ---

  /** A staging move. It would overwrite; that it never gets the chance is proved below. */
  function ExecMove(reg: Registry, m: PlannedMove): Registry {
    if m.source in reg then reg[Target(m) := reg[m.source]] - {m.source} else reg
  }

  function ExecMoves(reg: Registry, moves: seq<PlannedMove>): Registry {
    if moves == [] then reg else ExecMove(ExecMoves(reg, moves[..|moves| - 1]), moves[|moves| - 1])
  }

  /** Source deletes, refused for protected repositories. */
  function ExecDeletes(reg: Registry, deletes: seq<Ref>, protected: set<Repo>): Registry {
    map r | r in reg && (r !in deletes || r.repo in protected) :: reg[r]
  }

  method ApplyPlan(reg: Registry, moves: seq<PlannedMove>, deletes: seq<Ref>, protected: set<Repo>)
    returns (after: Registry)
    ensures after == ExecDeletes(ExecMoves(reg, moves), deletes, protected)
  {
    after := reg;
    for i := 0 to |moves|
      invariant after == ExecMoves(reg, moves[..i])
    {
      assert moves[..i + 1][..i] == moves[..i];
      after := ExecMove(after, moves[i]);
    }
    assert moves[..|moves|] == moves;
    for i := 0 to |deletes|
      invariant after == ExecDeletes(ExecMoves(reg, moves), deletes[..i], protected)
    {
      assert deletes[..i + 1] == deletes[..i] + [deletes[i]];
      if deletes[i].repo !in protected {
        after := after - {deletes[i]};
      }
    }
    assert deletes[..|deletes|] == deletes;
  }

  /** Any selection from the kept moves, in any order, each at most once. */
  ghost predicate Selection(reg: Registry, group: Group, scan: seq<Repo>, moves: seq<PlannedMove>) {
    OneRival(moves) && forall m :: m in moves ==> IsMove(reg, group, scan, m) && Target(m) !in reg
  }

  ghost predicate Arrived(moves: seq<PlannedMove>, t: Ref, source: Ref) {
    exists m :: m in moves && Target(m) == t && m.source == source
  }

  ghost predicate Departed(moves: seq<PlannedMove>, r: Ref) {
    exists m :: m in moves && m.source == r
  }

  /** The moves have run: sources gone, targets hold the source's copy, the rest as before. */
  ghost predicate Moved(reg: Registry, moves: seq<PlannedMove>, after: Registry) {
    && (forall r :: r in reg ==> (r in after <==> !Departed(moves, r)))
    && (forall r :: r in reg && r in after ==> after[r] == reg[r])
    && (forall m :: m in moves ==> Target(m) in after && m.source in reg && after[Target(m)] == reg[m.source])
    && (forall r :: r in after && r !in reg ==> exists source :: Arrived(moves, r, source))
  }

  lemma {:induction false} MovesRun(reg: Registry, group: Group, scan: seq<Repo>, moves: seq<PlannedMove>)
    requires Selection(reg, group, scan, moves)
    ensures Moved(reg, moves, ExecMoves(reg, moves))
    ensures forall i :: 0 <= i < |moves| ==> Target(moves[i]) !in ExecMoves(reg, moves[..i])
  {
    hide IsMove, ExecMove, Arrived, Departed;
    NoneMoved(reg);
    if moves != [] {
      var init, m := moves[..|moves| - 1], moves[|moves| - 1];
      assert moves == init + [m];
      assert Selection(reg, group, scan, init);
      MovesRun(reg, group, scan, init);
      forall i | 0 <= i < |init|
        ensures Target(moves[i]) !in ExecMoves(reg, moves[..i])
      {
        assert init[..i] == moves[..i];
      }
      ApartFromLast(reg, group, scan, init, m);
      OneMoreMove(reg, init, m, ExecMoves(reg, init));
    }
  }

  lemma NoneMoved(reg: Registry)
    ensures Moved(reg, [], reg)
  {
  }

  lemma ApartFromLast(reg: Registry, group: Group, scan: seq<Repo>, init: seq<PlannedMove>, m: PlannedMove)
    requires Selection(reg, group, scan, init + [m])
    ensures m.source in reg && Target(m) !in reg
    ensures forall k :: k in init ==> Target(k) != Target(m) && k.source != m.source && Target(k) !in reg
  {
    var moves := init + [m];
    assert moves[|init|] == m && m in moves;
    forall k | k in init
      ensures Target(k) != Target(m) && k.source != m.source && Target(k) !in reg
    {
      var i :| 0 <= i < |init| && init[i] == k;
      assert moves[i] == k && k in moves;
    }
  }

  lemma OneMoreMove(reg: Registry, init: seq<PlannedMove>, m: PlannedMove, before: Registry)
    requires m.source in reg && Target(m) !in reg
    requires forall k :: k in init ==> Target(k) != Target(m) && k.source != m.source && Target(k) !in reg
    requires Moved(reg, init, before)
    ensures Target(m) !in before && Moved(reg, init + [m], ExecMove(before, m))
  {
    hide Arrived, Departed;
    NotThere(init, m);
    var after := ExecMove(before, m);
    assert forall r :: r in after <==> r == Target(m) || (r in before && r != m.source);
    DepartedSnoc(init, m);
    ArrivedSnoc(init, m);
    forall r | r in after && r !in reg
      ensures exists source :: Arrived(init + [m], r, source)
    {
      if r == Target(m) {
        assert Arrived(init + [m], r, m.source);
      } else {
        var source :| Arrived(init, r, source);
        assert Arrived(init + [m], r, source);
      }
    }
  }

  lemma NotThere(init: seq<PlannedMove>, m: PlannedMove)
    requires forall k :: k in init ==> Target(k) != Target(m) && k.source != m.source
    ensures !Departed(init, m.source) && forall source :: !Arrived(init, Target(m), source)
  {
  }

  lemma DepartedSnoc(init: seq<PlannedMove>, m: PlannedMove)
    ensures forall r :: Departed(init + [m], r) <==> Departed(init, r) || r == m.source
  {
    var longer := init + [m];
    forall r
      ensures Departed(longer, r) <==> Departed(init, r) || r == m.source
    {
      if Departed(init, r) {
        var k :| k in init && k.source == r;
        assert k in longer;
      }
      assert m in longer;
    }
  }

  lemma ArrivedSnoc(init: seq<PlannedMove>, m: PlannedMove)
    ensures forall t, s :: Arrived(init + [m], t, s) <==> Arrived(init, t, s) || (t == Target(m) && s == m.source)
  {
    var longer := init + [m];
    forall t, s
      ensures Arrived(longer, t, s) <==> Arrived(init, t, s) || (t == Target(m) && s == m.source)
    {
      if Arrived(init, t, s) {
        var k :| k in init && Target(k) == t && k.source == s;
        assert k in longer;
      }
      assert m in longer;
    }
  }

  // --- Nothing is lost ---

  /** A copy of the tag that survives in place of `r`; when both dates are known, no older one. */
  ghost predicate StandsIn(reg: Registry, after: Registry, r: Ref, s: Ref) {
    && s in after && r in reg && s.image == r.image && s.tag == r.tag
    && (reg[r].built.Some? && after[s].built.Some? ==> reg[r].built.value <= after[s].built.value)
  }

  lemma TargetIsPlaced(reg: Registry, group: Group, scan: seq<Repo>, m: PlannedMove)
    requires IsMove(reg, group, scan, m)
    ensures !Misplaced(group, m.dest, m.source.image, m.source.tag)
  {
  }

  /** Whatever subset of the `move` and `superseded` items is executed: nothing already in
      the registry is overwritten, every tag is still held somewhere, and each copy that
      went has a stand-in that is not provably older. */
  lemma LosesNothing(reg: Registry, group: Group, scan: seq<Repo>, protected: set<Repo>,
                     kept: seq<PlannedMove>, deletes: seq<Ref>, review: seq<Superseded>,
                     moves: seq<PlannedMove>, drops: seq<Ref>)
    requires Planned(reg, group, scan, kept, deletes, review)
    requires OneRival(moves) && (forall m :: m in moves ==> m in kept) && forall r :: r in drops ==> r in deletes
    ensures var after := ExecDeletes(ExecMoves(reg, moves), drops, protected);
            && (forall i :: 0 <= i < |moves| ==> Target(moves[i]) !in ExecMoves(reg, moves[..i]))
            && (forall r :: r in reg && r in after ==> after[r] == reg[r])
            && (forall r :: r in reg ==>
                  exists s :: s in after && s.image == r.image && s.tag == r.tag
                              && (reg[r].built.Some? && after[s].built.Some? ==>
                                    reg[r].built.value <= after[s].built.value))
  {
    hide Planned, IsMove, Selection;
    SelectionOfKept(reg, group, scan, kept, deletes, review, moves);
    MovesRun(reg, group, scan, moves);
    var after := ExecDeletes(ExecMoves(reg, moves), drops, protected);
    forall r | r in reg
      ensures exists s :: s in after && s.image == r.image && s.tag == r.tag
                          && (reg[r].built.Some? && after[s].built.Some? ==>
                                reg[r].built.value <= after[s].built.value)
    {
      var s := StandIn(reg, group, scan, protected, kept, deletes, review, moves, drops, r);
      assert s in after;
    }
  }

  /** What an executed subset leaves: each moved tag at its target, and of the rest what was not
      moved away, nor deleted and free to be. */
  lemma AppliedIs(reg: Registry, group: Group, scan: seq<Repo>, protected: set<Repo>,
                  kept: seq<PlannedMove>, deletes: seq<Ref>, review: seq<Superseded>,
                  moves: seq<PlannedMove>, drops: seq<Ref>)
    requires Planned(reg, group, scan, kept, deletes, review)
    requires OneRival(moves) && (forall m :: m in moves ==> m in kept) && forall r :: r in drops ==> r in deletes
    ensures var after := ExecDeletes(ExecMoves(reg, moves), drops, protected);
            && (forall m :: m in moves ==>
                  var t := Ref(m.dest, m.source.image, m.source.tag);
                  m.source in reg && t in after && after[t] == reg[m.source])
            && (forall r :: r in reg ==>
                  (r in after <==> && (forall m :: m in moves ==> m.source != r)
                                   && (r in drops ==> r.repo in protected)))
            && (forall r :: r in reg && r in after ==> after[r] == reg[r])
            && (forall r :: r in after && r !in reg ==>
                  exists m :: m in moves && r == Ref(m.dest, m.source.image, m.source.tag))
  {
    hide Planned, IsMove;
    SelectionOfKept(reg, group, scan, kept, deletes, review, moves);
    MovesRun(reg, group, scan, moves);
    var after := ExecDeletes(ExecMoves(reg, moves), drops, protected);
    PlannedDeletes(reg, group, scan, kept, deletes, review);
    forall m | m in moves
      ensures m.source in reg && Target(m) in after && after[Target(m)] == reg[m.source]
    {
      TargetSurvives(reg, group, scan, kept, moves, drops, protected, m);
    }
    forall r | r in after && r !in reg
      ensures exists m :: m in moves && r == Target(m)
    {
      var source :| Arrived(moves, r, source);
    }
  }

  lemma PlannedDeletes(reg: Registry, group: Group, scan: seq<Repo>,
                       kept: seq<PlannedMove>, deletes: seq<Ref>, review: seq<Superseded>)
    requires Planned(reg, group, scan, kept, deletes, review)
    ensures forall r :: r in deletes ==> Deletable(reg, group, scan, kept, r)
  {
  }

  lemma SelectionOfKept(reg: Registry, group: Group, scan: seq<Repo>,
                        kept: seq<PlannedMove>, deletes: seq<Ref>, review: seq<Superseded>, moves: seq<PlannedMove>)
    requires Planned(reg, group, scan, kept, deletes, review)
    requires OneRival(moves) && forall m :: m in moves ==> m in kept
    ensures Selection(reg, group, scan, moves)
  {
    hide KeepsNewest, Deletable, NeedsReview, IsMove;
  }

  lemma StandIn(reg: Registry, group: Group, scan: seq<Repo>, protected: set<Repo>,
                kept: seq<PlannedMove>, deletes: seq<Ref>, review: seq<Superseded>,
                moves: seq<PlannedMove>, drops: seq<Ref>, r: Ref) returns (s: Ref)
    requires Planned(reg, group, scan, kept, deletes, review)
    requires OneRival(moves) && (forall m :: m in moves ==> m in kept) && forall r :: r in drops ==> r in deletes
    requires r in reg
    ensures StandsIn(reg, ExecDeletes(ExecMoves(reg, moves), drops, protected), r, s)
  {
    hide KeepsNewest, IsMove, NeedsReview, Winner, DroppedFor;
    SelectionOfKept(reg, group, scan, kept, deletes, review, moves);
    MovesRun(reg, group, scan, moves);
    var mid := ExecMoves(reg, moves);
    if r in ExecDeletes(mid, drops, protected) {
      s := r;
    } else if r !in mid {
      var m :| m in moves && m.source == r;
      TargetSurvives(reg, group, scan, kept, moves, drops, protected, m);
      s := Target(m);
    } else {
      var m, w :| DroppedFor(reg, group, scan, kept, m, w) && m.source == r && !ProvablyNewer(reg[r].built, w.built);
      s := WinnerSurvives(reg, group, scan, kept, deletes, review, moves, drops, protected, m, w);
    }
  }

  lemma TargetSurvives(reg: Registry, group: Group, scan: seq<Repo>, kept: seq<PlannedMove>,
                       moves: seq<PlannedMove>, drops: seq<Ref>, protected: set<Repo>, m: PlannedMove)
    requires Selection(reg, group, scan, moves) && m in moves
    requires forall r :: r in drops ==> Deletable(reg, group, scan, kept, r)
    ensures var after := ExecDeletes(ExecMoves(reg, moves), drops, protected);
            Target(m) in after && after[Target(m)] == reg[m.source]
  {
    MovesRun(reg, group, scan, moves);
  }

  /** A tag already where the rules want it is neither moved away nor deleted. */
  lemma PlacedStays(reg: Registry, group: Group, scan: seq<Repo>, kept: seq<PlannedMove>,
                    moves: seq<PlannedMove>, drops: seq<Ref>, protected: set<Repo>, t: Ref)
    requires Selection(reg, group, scan, moves) && t in reg && !Misplaced(group, t.repo, t.image, t.tag)
    requires forall r :: r in drops ==> Deletable(reg, group, scan, kept, r)
    ensures var after := ExecDeletes(ExecMoves(reg, moves), drops, protected);
            t in after && after[t] == reg[t]
  {
    hide Misplaced, MoveFor, Winner, ProvablyNewer;
    MovesRun(reg, group, scan, moves);
    assert !Departed(moves, t);
    assert t !in drops;
  }

  /** Until its move runs, the source of a kept move stays: it is nobody's superseded copy. */
  lemma KeptSourceStays(reg: Registry, group: Group, scan: seq<Repo>, kept: seq<PlannedMove>,
                        moves: seq<PlannedMove>, drops: seq<Ref>, protected: set<Repo>, k: PlannedMove)
    requires Selection(reg, group, scan, moves) && IsMove(reg, group, scan, k) && k in kept && k !in moves
    requires forall r :: r in drops ==> Deletable(reg, group, scan, kept, r)
    ensures var after := ExecDeletes(ExecMoves(reg, moves), drops, protected);
            k.source in after && after[k.source] == reg[k.source]
  {
    hide Misplaced, MoveFor, Winner, ProvablyNewer;
    MovesRun(reg, group, scan, moves);
    assert !Departed(moves, k.source);
    assert k.source !in drops;
  }

  lemma WinnerSurvives(reg: Registry, group: Group, scan: seq<Repo>,
                       kept: seq<PlannedMove>, deletes: seq<Ref>, review: seq<Superseded>,
                       moves: seq<PlannedMove>, drops: seq<Ref>, protected: set<Repo>, m: PlannedMove, w: Copy)
    returns (s: Ref)
    requires Planned(reg, group, scan, kept, deletes, review)
    requires OneRival(moves) && (forall m :: m in moves ==> m in kept) && forall r :: r in drops ==> r in deletes
    requires DroppedFor(reg, group, scan, kept, m, w)
    ensures var after := ExecDeletes(ExecMoves(reg, moves), drops, protected);
            s in after && after[s] == w && s.image == m.source.image && s.tag == m.source.tag
  {
    hide KeepsNewest, IsMove, Deletable, NeedsReview, ExecDeletes, ExecMoves, Misplaced;
    SelectionOfKept(reg, group, scan, kept, deletes, review, moves);
    TargetIsPlaced(reg, group, scan, m);
    if Target(m) in reg {
      s := Target(m);
      PlacedStays(reg, group, scan, kept, moves, drops, protected, s);
    } else {
      var k :| k in kept && Target(k) == Target(m) && k.source in reg && w == reg[k.source];
      if k in moves {
        s := Target(k);
        TargetSurvives(reg, group, scan, kept, moves, drops, protected, k);
      } else {
        s := k.source;
        KeptSourceStays(reg, group, scan, kept, moves, drops, protected, k);
      }
    }
  }

  // --- A second run ---

  /** After a full apply, a move the next plan would consider was one of the first plan's
      dropped moves: either up for review, or a delete that a protected repository refused.
      Its target is now held, by the same winner. */
  lemma StillMisplaced(reg: Registry, group: Group, scan: seq<Repo>, protected: set<Repo>,
                       kept: seq<PlannedMove>, deletes: seq<Ref>, review: seq<Superseded>, m: PlannedMove)
    requires Planned(reg, group, scan, kept, deletes, review)
    requires IsMove(ExecDeletes(ExecMoves(reg, kept), deletes, protected), group, scan, m)
    ensures var after := ExecDeletes(ExecMoves(reg, kept), deletes, protected);
            && IsMove(reg, group, scan, m) && m !in kept && after[m.source] == reg[m.source]
            && (m.source in deletes ==> m.source.repo in protected)
            && Target(m) in after && Winner(reg, kept, m, after[Target(m)])
  {
    hide Planned, Moved, Winner, Misplaced, MoveFor;
    WasThere(reg, group, scan, protected, kept, deletes, review, m);
    WinnerStays(reg, group, scan, protected, kept, deletes, review, m);
  }

  lemma WasThere(reg: Registry, group: Group, scan: seq<Repo>, protected: set<Repo>,
                 kept: seq<PlannedMove>, deletes: seq<Ref>, review: seq<Superseded>, m: PlannedMove)
    requires Planned(reg, group, scan, kept, deletes, review)
    requires IsMove(ExecDeletes(ExecMoves(reg, kept), deletes, protected), group, scan, m)
    ensures IsMove(reg, group, scan, m) && m !in kept
    ensures ExecDeletes(ExecMoves(reg, kept), deletes, protected)[m.source] == reg[m.source]
    ensures m.source in deletes ==> m.source.repo in protected
  {
    hide KeepsNewest, NeedsReview, Deletable;
    MovesRun(reg, group, scan, kept);
    forall source
      ensures !Arrived(kept, m.source, source)
    {
      forall k | k in kept
        ensures Target(k) != m.source
      {
        TargetIsPlaced(reg, group, scan, k);
      }
    }
  }

  /** A held target is neither moved nor deleted; an empty one is filled and then kept. */
  lemma WinnerStays(reg: Registry, group: Group, scan: seq<Repo>, protected: set<Repo>,
                    kept: seq<PlannedMove>, deletes: seq<Ref>, review: seq<Superseded>, m: PlannedMove)
    requires Planned(reg, group, scan, kept, deletes, review) && IsMove(reg, group, scan, m)
    ensures var after := ExecDeletes(ExecMoves(reg, kept), deletes, protected);
            Target(m) in after && Winner(reg, kept, m, after[Target(m)])
  {
    hide KeepsNewest, IsMove, Deletable, NeedsReview, ExecDeletes, ExecMoves, Misplaced, ProvablyNewer;
    SelectionOfKept(reg, group, scan, kept, deletes, review, kept);
    TargetIsPlaced(reg, group, scan, m);
    if Target(m) in reg {
      PlacedStays(reg, group, scan, kept, kept, deletes, protected, Target(m));
    } else {
      var k := NewestIsKept(reg, group, scan, kept, m);
      TargetSurvives(reg, group, scan, kept, kept, deletes, protected, k);
    }
  }

  /** Every dropped move the first run left in place is there for the second run to see. */
  lemma LeftInPlace(reg: Registry, group: Group, scan: seq<Repo>, protected: set<Repo>,
                    kept: seq<PlannedMove>, deletes: seq<Ref>, review: seq<Superseded>, m: PlannedMove)
    requires Planned(reg, group, scan, kept, deletes, review)
    requires IsMove(reg, group, scan, m) && m !in kept && (m.source in deletes ==> m.source.repo in protected)
    ensures IsMove(ExecDeletes(ExecMoves(reg, kept), deletes, protected), group, scan, m)
  {
    hide KeepsNewest, NeedsReview, Deletable;
    MovesRun(reg, group, scan, kept);
    forall k | k in kept
      ensures k.source != m.source
    {
      assert IsMove(reg, group, scan, k);
    }
    assert !Departed(kept, m.source);
  }

  lemma WinnerUnique(reg: Registry, kept: seq<PlannedMove>, m: PlannedMove, w: Copy, w': Copy)
    requires OneRival(kept) && Winner(reg, kept, m, w) && Winner(reg, kept, m, w')
    ensures w == w'
  {
    if Target(m) !in reg {
      var k :| k in kept && Target(k) == Target(m) && k.source in reg && w == reg[k.source];
      var k' :| k' in kept && Target(k') == Target(m) && k'.source in reg && w' == reg[k'.source];
      var i :| 0 <= i < |kept| && kept[i] == k;
      var j :| 0 <= j < |kept| && kept[j] == k';
    }
  }

  /** A dropped move is dropped again, on the same evidence, exactly when it was left. */
  lemma DroppedAgain(reg: Registry, group: Group, scan: seq<Repo>, protected: set<Repo>,
                     kept: seq<PlannedMove>, deletes: seq<Ref>, review: seq<Superseded>, m: PlannedMove, w: Copy)
    requires Planned(reg, group, scan, kept, deletes, review)
    ensures var after := ExecDeletes(ExecMoves(reg, kept), deletes, protected);
            DroppedFor(after, group, scan, [], m, w) <==>
            DroppedFor(reg, group, scan, kept, m, w) && (m.source in deletes ==> m.source.repo in protected)
  {
    hide KeepsNewest, IsMove, Deletable, NeedsReview, ExecDeletes, ExecMoves;
    var after := ExecDeletes(ExecMoves(reg, kept), deletes, protected);
    if IsMove(after, group, scan, m) {
      StillMisplaced(reg, group, scan, protected, kept, deletes, review, m);
      if Winner(reg, kept, m, w) {
        WinnerUnique(reg, kept, m, w, after[Target(m)]);
      }
    }
    if DroppedFor(reg, group, scan, kept, m, w) && (m.source in deletes ==> m.source.repo in protected) {
      LeftInPlace(reg, group, scan, protected, kept, deletes, review, m);
    }
  }

  /** Convergence. After applying everything, a second plan keeps no move and reviews the
      same newer sources; what it would delete is exactly what was refused as protected. */
  lemma Converges(reg: Registry, group: Group, scan: seq<Repo>, protected: set<Repo>,
                  kept: seq<PlannedMove>, deletes: seq<Ref>, review: seq<Superseded>,
                  kept': seq<PlannedMove>, deletes': seq<Ref>, review': seq<Superseded>)
    requires Planned(reg, group, scan, kept, deletes, review)
    requires Planned(ExecDeletes(ExecMoves(reg, kept), deletes, protected), group, scan, kept', deletes', review')
    ensures kept' == []
    ensures forall r :: r in deletes' <==> r in deletes && r.repo in protected
    ensures forall x :: x in review' <==> x in review
  {
    hide Planned, IsMove, Winner, ProvablyNewer, DroppedFor;
    NothingKept(reg, group, scan, protected, kept, deletes, review, kept', deletes', review');
    var after := ExecDeletes(ExecMoves(reg, kept), deletes, protected);
    forall m, w
      ensures DroppedFor(after, group, scan, kept', m, w) <==>
              DroppedFor(reg, group, scan, kept, m, w) && (m.source in deletes ==> m.source.repo in protected)
    {
      DroppedAgain(reg, group, scan, protected, kept, deletes, review, m, w);
    }
    SameDecisions(reg, after, group, scan, protected, kept, deletes, review, kept', deletes', review');
  }

  lemma NothingKept(reg: Registry, group: Group, scan: seq<Repo>, protected: set<Repo>,
                    kept: seq<PlannedMove>, deletes: seq<Ref>, review: seq<Superseded>,
                    kept': seq<PlannedMove>, deletes': seq<Ref>, review': seq<Superseded>)
    requires Planned(reg, group, scan, kept, deletes, review)
    requires Planned(ExecDeletes(ExecMoves(reg, kept), deletes, protected), group, scan, kept', deletes', review')
    ensures kept' == []
  {
    hide KeepsNewest, IsMove, Deletable, NeedsReview, Winner, ExecDeletes, ExecMoves;
    forall m
      ensures m !in kept'
    {
      if m in kept' {
        StillMisplaced(reg, group, scan, protected, kept, deletes, review, m);
      }
    }
    HasMember(kept');
  }

  lemma SameDecisions(reg: Registry, after: Registry, group: Group, scan: seq<Repo>, protected: set<Repo>,
                      kept: seq<PlannedMove>, deletes: seq<Ref>, review: seq<Superseded>,
                      kept': seq<PlannedMove>, deletes': seq<Ref>, review': seq<Superseded>)
    requires Planned(reg, group, scan, kept, deletes, review)
    requires Planned(after, group, scan, kept', deletes', review')
    requires after == ExecDeletes(ExecMoves(reg, kept), deletes, protected)
    requires forall m, w :: DroppedFor(after, group, scan, kept', m, w) <==>
               DroppedFor(reg, group, scan, kept, m, w) && (m.source in deletes ==> m.source.repo in protected)
    ensures forall r :: r in deletes' <==> r in deletes && r.repo in protected
    ensures forall x :: x in review' <==> x in review
  {
    hide KeepsNewest, KeepsMoves, ExecDeletes, ExecMoves;
    forall m, w | DroppedFor(after, group, scan, kept', m, w)
      ensures after[m.source] == reg[m.source]
    {
      StillMisplaced(reg, group, scan, protected, kept, deletes, review, m);
    }
    forall r
      ensures r in deletes' <==> r in deletes && r.repo in protected
    {
      if Deletable(after, group, scan, kept', r) {
        var m, w :| DroppedFor(after, group, scan, kept', m, w) && m.source == r && !ProvablyNewer(after[r].built, w.built);
        assert Deletable(reg, group, scan, kept, r);
      }
      if r in deletes && r.repo in protected {
        var m, w :| DroppedFor(reg, group, scan, kept, m, w) && m.source == r && !ProvablyNewer(reg[r].built, w.built);
        assert DroppedFor(after, group, scan, kept', m, w);
      }
    }
    forall x
      ensures x in review' <==> x in review
    {
      if NeedsReview(after, group, scan, kept', x) {
        var w :| DroppedFor(after, group, scan, kept', x.move, w)
                 && x.ownBuilt == after[x.move.source].built && x.winnerBuilt == w.built;
        assert Dropped(reg, group, scan, kept, x);
      }
      if NeedsReview(reg, group, scan, kept, x) {
        var w :| DroppedFor(reg, group, scan, kept, x.move, w)
                 && x.ownBuilt == reg[x.move.source].built && x.winnerBuilt == w.built;
        ReviewedIsNotDeleted(reg, group, scan, kept, deletes, review, x, w);
        assert DroppedFor(after, group, scan, kept', x.move, w);
        assert Dropped(after, group, scan, kept', x);
      }
    }
  }

  lemma ReviewedIsNotDeleted(reg: Registry, group: Group, scan: seq<Repo>,
                             kept: seq<PlannedMove>, deletes: seq<Ref>, review: seq<Superseded>, x: Superseded, w: Copy)
    requires Planned(reg, group, scan, kept, deletes, review)
    requires DroppedFor(reg, group, scan, kept, x.move, w) && ProvablyNewer(reg[x.move.source].built, w.built)
    ensures x.move.source !in deletes
  {
    hide KeepsNewest;
    if Deletable(reg, group, scan, kept, x.move.source) {
      var m, w' :| DroppedFor(reg, group, scan, kept, m, w') && m.source == x.move.source
                   && !ProvablyNewer(reg[m.source].built, w'.built);
      WinnerUnique(reg, kept, m, w, w');
    }
  }

  lemma HasMember<T>(s: seq<T>)
    ensures s == [] || exists x :: x in s
  {
    if s != [] {
      assert s[0] in s;
    }
  }

  /** The fixpoint is reached exactly when no refused delete is outstanding. */
  lemma ConvergesIff(reg: Registry, group: Group, scan: seq<Repo>, protected: set<Repo>,
                     kept: seq<PlannedMove>, deletes: seq<Ref>, review: seq<Superseded>,
                     kept': seq<PlannedMove>, deletes': seq<Ref>, review': seq<Superseded>)
    requires Planned(reg, group, scan, kept, deletes, review)
    requires Planned(ExecDeletes(ExecMoves(reg, kept), deletes, protected), group, scan, kept', deletes', review')
    ensures kept' == [] && deletes' == [] <==> forall r :: r in deletes ==> r.repo !in protected
  {
    Converges(reg, group, scan, protected, kept, deletes, review, kept', deletes', review');
    hide Planned;
    HasMember(deletes');
  }

  // --- Scan lists ---

  /** One run on one registry: a plan for some move and leave rules, and what was executed of it. */
  datatype Execution = Execution(
    reg: Registry, group: Group, inventories: map<Repo, seq<(Image, Tag)>>,
    kept: seq<PlannedMove>, deletes: seq<Ref>, review: seq<Superseded>,
    moves: seq<PlannedMove>, drops: seq<Ref>, protected: set<Repo>)
  {
    function Outcome(): Registry {
      ExecDeletes(ExecMoves(reg, moves), drops, protected)
    }
  }

  /** The plan is what this scan list yields, and any subset of it was executed. */
  ghost predicate Executes(scan: seq<Repo>, e: Execution) {
    && ListsRegistry(e.reg, e.inventories) && OnlyMovesAndLeaves(e.group)
    && (forall r :: r in scan ==> r in e.inventories)
    && PlansFrom(e.reg, ScanMoves(e.group, scan, e.inventories), e.kept, e.deletes, e.review)
    && OneRival(e.moves) && (forall m :: m in e.moves ==> m in e.kept) && forall r :: r in e.drops ==> r in e.deletes
  }

  /** Every copy that went has a stand-in that is not provably older. */
  ghost predicate NothingLost(e: Execution) {
    forall r :: r in e.reg ==> exists s :: StandsIn(e.reg, e.Outcome(), r, s)
  }

  /** The scan list must not repeat a repository: only then does no execution of any plan for
      any registry and rules lose a tag. */
  lemma ScanListIff(scan: seq<Repo>)
    ensures (forall e :: Executes(scan, e) ==> NothingLost(e)) <==> Distinct(scan)
  {
    if Distinct(scan) {
      forall e | Executes(scan, e)
        ensures NothingLost(e)
      {
        DistinctScanLosesNothing(scan, e);
      }
    } else {
      var i, j :| 0 <= i < j < |scan| && scan[i] == scan[j];
      var e := RepeatedScanLoses(scan, i, j);
    }
  }

  lemma DistinctScanLosesNothing(scan: seq<Repo>, e: Execution)
    requires Distinct(scan) && Executes(scan, e)
    ensures NothingLost(e)
  {
    hide Planned, PlansWith, IsMove, ListsRegistry, ExecMoves, ExecDeletes;
    var all := ScanMoves(e.group, scan, e.inventories);
    ScanMovesMembers(e.group, scan, e.inventories, e.reg);
    var present, ts, superseded :| PlansWith(e.reg, all, present, ts, superseded, e.kept, e.deletes, e.review);
    PlanIsPlanned(e.reg, e.group, scan, all, present, ts, superseded, e.kept, e.deletes, e.review);
    LosesNothing(e.reg, e.group, scan, e.protected, e.kept, e.deletes, e.review, e.moves, e.drops);
    var after := e.Outcome();
    forall r | r in e.reg
      ensures exists s :: StandsIn(e.reg, after, r, s)
    {
      var s :| s in after && s.image == r.image && s.tag == r.tag
               && (e.reg[r].built.Some? && after[s].built.Some? ==> e.reg[r].built.value <= after[s].built.value);
      assert StandsIn(e.reg, after, r, s);
    }
  }

  ghost predicate AllAre(moves: seq<PlannedMove>, m: PlannedMove) {
    forall i :: 0 <= i < |moves| ==> moves[i] == m
  }

  lemma {:induction false} OwnRivals(moves: seq<PlannedMove>, m: PlannedMove)
    requires AllAre(moves, m)
    ensures Rivals(moves, Target(m)) == moves
  {
    if moves != [] {
      OwnRivals(moves[..|moves| - 1], m);
      assert moves == moves[..|moves| - 1] + [moves[|moves| - 1]];
    }
  }

  /** Several equal moves: one is kept and the others are reported against it. */
  lemma OwnCollision(moves: seq<PlannedMove>, m: PlannedMove, ts: Dates)
    requires AllAre(moves, m) && |moves| >= 2
    ensures forall k :: IsKept(k, moves, {}, ts) <==> k == m
    ensures var d := DateOf(ts, m.source);
            forall x :: IsDropped(x, moves, {}, ts) <==> x == Superseded(m, d, d)
  {
    OwnRivals(moves, m);
    forall t | t != Target(m)
      ensures Rivals(moves, t) == []
    {
      RivalsMembers(moves, t);
      HasMember(Rivals(moves, t));
    }
    var x := Superseded(m, DateOf(ts, m.source), DateOf(ts, m.source));
    var other := if Newest(moves, ts, |moves|) == 0 then 1 else 0;
    assert !Survives(moves, other, Target(m), {}, ts) && Evidence(moves, other, Target(m), {}, ts) == x;
    assert DroppedAmong(x, moves, |moves|, Target(m), {}, ts);
  }

  const IMAGE: Image := "app"
  const TAG: Tag := "1"

  /** One image with one tag, in `repo` alone. */
  function OneListing(scan: seq<Repo>, repo: Repo): map<Repo, seq<(Image, Tag)>> {
    map r | r in scan :: if r == repo then [(IMAGE, TAG)] else []
  }

  /** Everything first-party belongs in `dest`. */
  function MoveAll(dest: Repo): Group {
    Group([""], [Rule(tag => true, [], ToMove, dest, "", LeaveMismatch, "", "", {}, {})])
  }

  /** How often the scan list names the repository. */
  function Times(scan: seq<Repo>, repo: Repo): nat {
    if scan == [] then 0
    else Times(scan[..|scan| - 1], repo) + if scan[|scan| - 1] == repo then 1 else 0
  }

  lemma {:induction false} TwiceOrMore(scan: seq<Repo>, repo: Repo, i: nat, j: nat)
    requires i < j < |scan| && scan[i] == scan[j] == repo
    ensures Times(scan, repo) >= 2
  {
    if j < |scan| - 1 {
      TwiceOrMore(scan[..|scan| - 1], repo, i, j);
    } else {
      OnceOrMore(scan[..|scan| - 1], repo, i);
    }
  }

  lemma {:induction false} OnceOrMore(scan: seq<Repo>, repo: Repo, i: nat)
    requires i < |scan| && scan[i] == repo
    ensures Times(scan, repo) >= 1
  {
    if i < |scan| - 1 {
      OnceOrMore(scan[..|scan| - 1], repo, i);
    }
  }

  lemma {:induction false} EachScanMoves(scan: seq<Repo>, all: seq<Repo>, repo: Repo, dest: Repo)
    requires repo != dest && forall r :: r in scan ==> r in all
    ensures var moves := ScanMoves(MoveAll(dest), scan, OneListing(all, repo));
            AllAre(moves, PlannedMove(Ref(repo, IMAGE, TAG), dest)) && |moves| == Times(scan, repo)
  {
    if scan != [] {
      hide GroupMoves;
      var init, last := scan[..|scan| - 1], scan[|scan| - 1];
      assert last in scan;
      EachScanMoves(init, all, repo, dest);
      OneGroupMove(last, repo, dest);
    }
  }

  lemma OneGroupMove(scanned: Repo, repo: Repo, dest: Repo)
    requires repo != dest
    ensures GroupMoves(MoveAll(dest), if scanned == repo then [(IMAGE, TAG)] else [], scanned)
         == if scanned == repo then [PlannedMove(Ref(repo, IMAGE, TAG), dest)] else []
  {
    var group := MoveAll(dest);
    assert group.firstPartyPrefixes[0] <= IMAGE;
    assert Misplaced(group, repo, IMAGE, TAG);
    assert [(IMAGE, TAG)][..0] == [];
  }

  /** A repository scanned twice: its one copy of a tag becomes its own rival, one of the moves
      is reported as superseded by itself, and applying that deletion alone loses the tag. */
  lemma RepeatedScanLoses(scan: seq<Repo>, i: nat, j: nat) returns (e: Execution)
    requires i < j < |scan| && scan[i] == scan[j]
    ensures Executes(scan, e) && !NothingLost(e) && e.moves == [] && e.Outcome() == map[]
  {
    var repo := scan[i];
    var dest := repo + "x";
    var ref := Ref(repo, IMAGE, TAG);
    var m := PlannedMove(ref, dest);
    var copy := Copy("c", Some(0));
    var ts: Dates := map[ref := copy.built];
    var x := Superseded(m, copy.built, copy.built);
    e := Execution(map[ref := copy], MoveAll(dest), OneListing(scan, repo), [m], [ref], [], [], [ref], {});
    assert repo in scan;
    EachScanMoves(scan, scan, repo, dest);
    TwiceOrMore(scan, repo, i, j);
    OwnCollision(ScanMoves(e.group, scan, e.inventories), m, ts);
    OwnPlan(e, ScanMoves(e.group, scan, e.inventories), m, copy, ts);
    assert e.Outcome() == map[];
  }

  lemma OwnPlan(e: Execution, moves: seq<PlannedMove>, m: PlannedMove, copy: Copy, ts: Dates)
    requires AllAre(moves, m) && |moves| >= 2 && m.source.repo != m.dest
    requires e.reg == map[m.source := copy] && ts == map[m.source := copy.built]
    requires e.kept == [m] && e.deletes == [m.source] && e.review == []
    requires forall k :: IsKept(k, moves, {}, ts) <==> k == m
    requires forall x :: IsDropped(x, moves, {}, ts) <==> x == Superseded(m, copy.built, copy.built)
    ensures PlansFrom(e.reg, moves, e.kept, e.deletes, e.review)
  {
    hide IsKept, IsDropped, Rivals;
    var x := Superseded(m, copy.built, copy.built);
    assert forall y :: y in moves ==> y == m;
    assert MayDelete([x], m.source);
    assert PlansWith(e.reg, moves, {}, ts, [x], e.kept, e.deletes, e.review);
  }
}
