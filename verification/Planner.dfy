/** The reorganisation planner: rules, the per-group plan, collision resolution, and the
    choice of which superseded copies may be deleted. */
module Planner {
  import opened Lex

  type Repo = string
  type Image = string
  type Tag = string

  /** One tagged image in one repository. */
  datatype Ref = Ref(repo: Repo, image: Image, tag: Tag)

  /** Its content, and its build date when that could be resolved. Dates are compared
      only by order, so numbers stand for them; the missing date sorts as the least. */
  datatype Copy = Copy(content: string, built: Option<nat>)

  type Registry = map<Ref, Copy>

  // --- Rules ---

  datatype Action = ToMove | ToDeleteIfAbsent | ToReconcile | ToClassify | ToDelete | ToLeave

  datatype MismatchPolicy = DeleteMismatch | LeaveMismatch

  datatype Rule = Rule(
    matches: Tag -> bool, images: seq<Image>, action: Action,
    dest: Repo, check: Repo, onMismatch: MismatchPolicy,
    auxDest: Repo, insightRepo: Repo, auxImages: set<Image>, insightImages: set<Image>)

  datatype Group = Group(firstPartyPrefixes: seq<string>, rules: seq<Rule>) {
    predicate IsFirstParty(image: Image) {
      exists i :: 0 <= i < |firstPartyPrefixes| && firstPartyPrefixes[i] <= image
    }
  }

  datatype AbsentDest = MoveTo(dest: Repo) | Flag

  datatype Decision =
    | Move(dest: Repo)
    | DeleteIfAbsent(check: Repo)
    | Reconcile(check: Repo, absent: AbsentDest, onMismatch: MismatchPolicy)
    | Triage
    | Delete
    | Leave

  /** The first rule whose image filter and tag pattern both match. */
  function MatchedRule(rules: seq<Rule>, image: Image, tag: Tag): Option<Rule> {
    if rules == [] then None
    else if (rules[0].images == [] || image in rules[0].images) && rules[0].matches(tag) then Some(rules[0])
    else MatchedRule(rules[1..], image, tag)
  }

  function Decide(group: Group, image: Image, tag: Tag): Decision {
    match MatchedRule(group.rules, image, tag)
    case None => Leave
    case Some(r) =>
      match r.action
      case ToMove => Move(r.dest)
      case ToDeleteIfAbsent => DeleteIfAbsent(r.check)
      case ToReconcile => Reconcile(r.check, MoveTo(r.dest), r.onMismatch)
      case ToClassify =>
        if image in r.auxImages then Move(r.auxDest)
        else if image in r.insightImages then Reconcile(r.insightRepo, Flag, r.onMismatch)
        else Triage
      case ToDelete => Delete
      case ToLeave => Leave
  }

  ghost predicate OnlyMovesAndLeaves(group: Group) {
    forall i :: 0 <= i < |group.rules| ==> group.rules[i].action == ToMove || group.rules[i].action == ToLeave
  }

  /** The first rule that fits decides, by its action. */
  lemma {:induction false} FirstFitDecides(prefixes: seq<string>, rules: seq<Rule>, image: Image, tag: Tag, i: nat)
    requires i < |rules| && (rules[i].images == [] || image in rules[i].images) && rules[i].matches(tag)
    requires forall j :: 0 <= j < i ==> !((rules[j].images == [] || image in rules[j].images) && rules[j].matches(tag))
    ensures var r, d := rules[i], Decide(Group(prefixes, rules), image, tag);
            && (r.action == ToMove ==> d == Move(r.dest))
            && (r.action == ToDeleteIfAbsent ==> d == DeleteIfAbsent(r.check))
            && (r.action == ToReconcile ==> d == Reconcile(r.check, MoveTo(r.dest), r.onMismatch))
            && (r.action == ToClassify && image in r.auxImages ==> d == Move(r.auxDest))
            && (r.action == ToClassify && image !in r.auxImages && image in r.insightImages ==>
                  d == Reconcile(r.insightRepo, Flag, r.onMismatch))
            && (r.action == ToClassify && image !in r.auxImages && image !in r.insightImages ==> d == Triage)
            && (r.action == ToDelete ==> d == Delete)
            && (r.action == ToLeave ==> d == Leave)
  {
    if i > 0 {
      assert forall j :: 0 <= j < |rules[1..]| ==> rules[1..][j] == rules[j + 1];
      FirstFitDecides(prefixes, rules[1..], image, tag, i - 1);
    }
  }

  /** A tag that no rule fits is left alone. */
  lemma {:induction false} NoFitLeaves(prefixes: seq<string>, rules: seq<Rule>, image: Image, tag: Tag)
    requires forall j :: 0 <= j < |rules| ==> !((rules[j].images == [] || image in rules[j].images) && rules[j].matches(tag))
    ensures Decide(Group(prefixes, rules), image, tag) == Leave
  {
    if rules != [] {
      assert forall j :: 0 <= j < |rules[1..]| ==> rules[1..][j] == rules[j + 1];
      NoFitLeaves(prefixes, rules[1..], image, tag);
    }
  }

  lemma {:induction false} DecisionIsMoveOrLeave(rules: seq<Rule>, prefixes: seq<string>, image: Image, tag: Tag)
    requires OnlyMovesAndLeaves(Group(prefixes, rules))
    ensures var d := Decide(Group(prefixes, rules), image, tag); d.Move? || d.Leave?
  {
    if rules != [] && MatchedRule(rules, image, tag) != Some(rules[0]) {
      assert forall i :: 0 <= i < |rules[1..]| ==> rules[1..][i] == rules[i + 1];
      DecisionIsMoveOrLeave(rules[1..], prefixes, image, tag);
    }
  }

  // --- The plan of one repository ---

  datatype PlannedMove = PlannedMove(source: Ref, dest: Repo)

  /** The copy a move would create. */
  function Target(m: PlannedMove): Ref {
    Ref(m.dest, m.source.image, m.source.tag)
  }

  datatype Plan = Plan(
    moves: seq<PlannedMove>, conditionalDeletes: seq<(Ref, Repo)>, reconciles: seq<(Ref, Repo, AbsentDest)>,
    triage: seq<Ref>, deletes: seq<Ref>, leaves: seq<Ref>, alreadyPlaced: nat)

  /** Where one inventory entry belongs. */
  function Placed(group: Group, repo: Repo, image: Image, tag: Tag, p: Plan): Plan {
    var ref := Ref(repo, image, tag);
    if !group.IsFirstParty(image) then p
    else
      match Decide(group, image, tag)
      case Move(dest) =>
        if dest == repo then p.(alreadyPlaced := p.alreadyPlaced + 1)
        else p.(moves := p.moves + [PlannedMove(ref, dest)])
      case DeleteIfAbsent(check) => p.(conditionalDeletes := p.conditionalDeletes + [(ref, check)])
      case Reconcile(check, absent, _) => p.(reconciles := p.reconciles + [(ref, check, absent)])
      case Triage => p.(triage := p.triage + [ref])
      case Delete => p.(deletes := p.deletes + [ref])
      case Leave => p.(leaves := p.leaves + [ref])
  }

  /** The entry calls for a move out of `repo`. */
  predicate Misplaced(group: Group, repo: Repo, image: Image, tag: Tag) {
    group.IsFirstParty(image)
    && var d := Decide(group, image, tag);
    d.Move? && d.dest != repo
  }

  function MoveFor(group: Group, ref: Ref): PlannedMove
    requires Misplaced(group, ref.repo, ref.image, ref.tag)
  {
    PlannedMove(ref, Decide(group, ref.image, ref.tag).dest)
  }

  ghost predicate Distinct<T>(s: seq<T>) {
    forall i, j :: 0 <= i < j < |s| ==> s[i] != s[j]
  }

  /** The moves out of one repository, in the order of its listing. */
  function GroupMoves(group: Group, inventory: seq<(Image, Tag)>, repo: Repo): seq<PlannedMove> {
    if inventory == [] then []
    else
      var (image, tag) := inventory[|inventory| - 1];
      GroupMoves(group, inventory[..|inventory| - 1], repo)
      + if Misplaced(group, repo, image, tag) then [MoveFor(group, Ref(repo, image, tag))] else []
  }

  lemma {:induction false} GroupMovesMembers(group: Group, inventory: seq<(Image, Tag)>, repo: Repo)
    ensures forall m :: m in GroupMoves(group, inventory, repo) <==>
              m.source.repo == repo && (m.source.image, m.source.tag) in inventory
              && Misplaced(group, repo, m.source.image, m.source.tag) && m == MoveFor(group, m.source)
    ensures Distinct(inventory) ==> Distinct(GroupMoves(group, inventory, repo))
  {
    if inventory != [] {
      hide Decide, Misplaced;
      var init, last := inventory[..|inventory| - 1], inventory[|inventory| - 1];
      var (image, tag) := last;
      var here := GroupMoves(group, init, repo);
      var more := if Misplaced(group, repo, image, tag) then [MoveFor(group, Ref(repo, image, tag))] else [];
      assert GroupMoves(group, inventory, repo) == here + more;
      GroupMovesMembers(group, init, repo);
      assert inventory == init + [last] && last == (image, tag);
      if Distinct(inventory) {
        assert last !in init;
        assert forall m :: m in here ==> (m.source.image, m.source.tag) != last;
        DistinctAppend(here, more);
      }
    }
  }

  lemma DistinctAppend<T>(a: seq<T>, b: seq<T>)
    requires Distinct(a) && |b| <= 1 && forall x :: x in b ==> x !in a
    ensures Distinct(a + b)
  {
    forall i, j | 0 <= i < j < |a + b|
      ensures (a + b)[i] != (a + b)[j]
    {
      if j == |a| {
        assert (a + b)[j] in b && (a + b)[i] in a;
      }
    }
  }

  method BuildGroupPlan(group: Group, inventory: seq<(Image, Tag)>, repo: Repo) returns (plan: Plan)
    ensures plan.moves == GroupMoves(group, inventory, repo)
    ensures forall m :: m in plan.moves <==>
              m.source.repo == repo && (m.source.image, m.source.tag) in inventory
              && Misplaced(group, repo, m.source.image, m.source.tag) && m == MoveFor(group, m.source)
    ensures forall m :: m in plan.moves <==>
              && m.source.repo == repo && (m.source.image, m.source.tag) in inventory
              && (exists p :: p in group.firstPartyPrefixes && p <= m.source.image)
              && Decide(group, m.source.image, m.source.tag) == Move(m.dest) && m.dest != repo
    ensures Sorts(plan, group, inventory, repo)
    ensures Distinct(inventory) ==> Distinct(plan.moves)
    ensures OnlyMovesAndLeaves(group) ==>
              plan.conditionalDeletes == [] && plan.reconciles == [] && plan.triage == [] && plan.deletes == []
  {
    plan := Plan([], [], [], [], [], [], 0);
    for i := 0 to |inventory|
      invariant plan.moves == GroupMoves(group, inventory[..i], repo)
      invariant Sorts(plan, group, inventory[..i], repo)
      invariant OnlyMovesAndLeaves(group) ==>
                  plan.conditionalDeletes == [] && plan.reconciles == [] && plan.triage == [] && plan.deletes == []
    {
      var (image, tag) := inventory[i];
      if OnlyMovesAndLeaves(group) {
        DecisionIsMoveOrLeave(group.rules, group.firstPartyPrefixes, image, tag);
      }
      assert inventory[..i + 1][..i] == inventory[..i];
      SortsNext(plan, group, inventory, i, repo);
      plan := Placed(group, repo, image, tag, plan);
    }
    assert inventory[..|inventory|] == inventory;
    GroupMovesMembers(group, inventory, repo);
    FirstPartyIff(group);
  }

  lemma FirstPartyIff(group: Group)
    ensures forall image :: group.IsFirstParty(image) <==> exists p :: p in group.firstPartyPrefixes && p <= image
  {
    forall image
      ensures group.IsFirstParty(image) <==> exists p :: p in group.firstPartyPrefixes && p <= image
    {
      if p :| p in group.firstPartyPrefixes && p <= image {
        var i :| 0 <= i < |group.firstPartyPrefixes| && group.firstPartyPrefixes[i] == p;
      }
      if i :| 0 <= i < |group.firstPartyPrefixes| && group.firstPartyPrefixes[i] <= image {
        assert group.firstPartyPrefixes[i] in group.firstPartyPrefixes;
      }
    }
  }

  /** One of the inventory's first-party tags, and what was decided for it. */
  ghost predicate Decided(group: Group, inventory: seq<(Image, Tag)>, repo: Repo, r: Ref, d: Decision) {
    && r.repo == repo && (r.image, r.tag) in inventory && group.IsFirstParty(r.image)
    && Decide(group, r.image, r.tag) == d
  }

  /** Every other list of the plan holds exactly the tags decided so. */
  ghost predicate Sorts(plan: Plan, group: Group, inventory: seq<(Image, Tag)>, repo: Repo) {
    && (forall r, check :: (r, check) in plan.conditionalDeletes <==>
                             Decided(group, inventory, repo, r, DeleteIfAbsent(check)))
    && (forall r, check, absent :: (r, check, absent) in plan.reconciles <==>
                                     exists on :: Decided(group, inventory, repo, r, Reconcile(check, absent, on)))
    && (forall r :: r in plan.triage <==> Decided(group, inventory, repo, r, Triage))
    && (forall r :: r in plan.deletes <==> Decided(group, inventory, repo, r, Delete))
    && (forall r :: r in plan.leaves <==> Decided(group, inventory, repo, r, Leave))
  }

  lemma SortsNext(plan: Plan, group: Group, inventory: seq<(Image, Tag)>, i: nat, repo: Repo)
    requires i < |inventory| && Sorts(plan, group, inventory[..i], repo)
    ensures Sorts(Placed(group, repo, inventory[i].0, inventory[i].1, plan), group, inventory[..i + 1], repo)
  {
    var (image, tag) := inventory[i];
    var ref := Ref(repo, image, tag);
    var more := inventory[..i + 1];
    assert more == inventory[..i] + [inventory[i]];
    DecidedNext(group, inventory, i, repo);
    hide Decided, Decide, Group.IsFirstParty;
  }

  lemma DecidedNext(group: Group, inventory: seq<(Image, Tag)>, i: nat, repo: Repo)
    requires i < |inventory|
    ensures var (image, tag) := inventory[i];
            forall r, d :: Decided(group, inventory[..i + 1], repo, r, d) <==>
              Decided(group, inventory[..i], repo, r, d)
              || (r == Ref(repo, image, tag) && group.IsFirstParty(image) && Decide(group, image, tag) == d)
  {
    hide Decide, Group.IsFirstParty;
    var (image, tag) := inventory[i];
    var more := inventory[..i + 1];
    assert more == inventory[..i] + [inventory[i]];
    forall r, d
      ensures Decided(group, more, repo, r, d) <==>
              Decided(group, inventory[..i], repo, r, d)
              || (r == Ref(repo, image, tag) && group.IsFirstParty(image) && Decide(group, image, tag) == d)
    {
      assert (r.image, r.tag) in more <==> (r.image, r.tag) in inventory[..i] || (r.image, r.tag) == inventory[i];
    }
  }

  // --- Collisions ---

  /** A dropped move, with the evidence the report shows. */
  datatype Superseded = Superseded(move: PlannedMove, ownBuilt: Option<nat>, winnerBuilt: Option<nat>)

  type Dates = map<Ref, Option<nat>>

  function DateOf(ts: Dates, r: Ref): Option<nat> {
    if r in ts then ts[r] else None
  }

  /** The order of ages: every date is above the missing one. */
  function AgeOr(o: Option<nat>): nat {
    if o.Some? then o.value + 1 else 0
  }

  /** The moves towards one target, in plan order. */
  function Rivals(moves: seq<PlannedMove>, target: Ref): seq<PlannedMove> {
    if moves == [] then []
    else
      Rivals(moves[..|moves| - 1], target)
      + if Target(moves[|moves| - 1]) == target then [moves[|moves| - 1]] else []
  }

  /** The first of the newest among the first `n`. */
  function Newest(c: seq<PlannedMove>, ts: Dates, n: nat): (best: nat)
    requires 0 < n <= |c|
    ensures best < n
    ensures forall i :: 0 <= i < n ==> AgeOr(DateOf(ts, c[i].source)) <= AgeOr(DateOf(ts, c[best].source))
    ensures forall i :: 0 <= i < best ==> AgeOr(DateOf(ts, c[i].source)) < AgeOr(DateOf(ts, c[best].source))
  {
    if n == 1 then 0
    else
      var best := Newest(c, ts, n - 1);
      if AgeOr(DateOf(ts, c[n - 1].source)) > AgeOr(DateOf(ts, c[best].source)) then n - 1 else best
  }

  /** One date beats another: it is known, and the other is missing or earlier. */
  predicate Beats(a: Option<nat>, b: Option<nat>) {
    a.Some? && (b.None? || b.value < a.value)
  }

  /** In dates: no rival beats the newest, and it beats every rival before it in plan order. */
  lemma NewestInDates(c: seq<PlannedMove>, ts: Dates, i: nat)
    requires i < |c|
    ensures var best := Newest(c, ts, |c|);
            && !Beats(DateOf(ts, c[i].source), DateOf(ts, c[best].source))
            && (i < best ==> Beats(DateOf(ts, c[best].source), DateOf(ts, c[i].source)))
  {
    var best := Newest(c, ts, |c|);
    assert AgeOr(DateOf(ts, c[i].source)) <= AgeOr(DateOf(ts, c[best].source));
    assert i < best ==> AgeOr(DateOf(ts, c[i].source)) < AgeOr(DateOf(ts, c[best].source));
  }

  /** The move at index `i` of its rivals survives. */
  predicate Survives(c: seq<PlannedMove>, i: nat, target: Ref, present: set<Ref>, ts: Dates)
    requires i < |c|
  {
    target !in present && i == Newest(c, ts, |c|)
  }

  function Evidence(c: seq<PlannedMove>, i: nat, target: Ref, present: set<Ref>, ts: Dates): Superseded
    requires i < |c|
  {
    Superseded(c[i], DateOf(ts, c[i].source),
               DateOf(ts, if target in present then target else c[Newest(c, ts, |c|)].source))
  }

  ghost predicate IsKept(m: PlannedMove, moves: seq<PlannedMove>, present: set<Ref>, ts: Dates) {
    var c := Rivals(moves, Target(m));
    c != [] && Target(m) !in present && c[Newest(c, ts, |c|)] == m
  }

  ghost predicate IsDropped(x: Superseded, moves: seq<PlannedMove>, present: set<Ref>, ts: Dates) {
    var t := Target(x.move);
    var c := Rivals(moves, t);
    DroppedAmong(x, c, |c|, t, present, ts)
  }

  /** `x` reports one of the first `n` rivals, and not the survivor. */
  ghost predicate DroppedAmong(x: Superseded, c: seq<PlannedMove>, n: nat, t: Ref, present: set<Ref>, ts: Dates)
    requires n <= |c|
  {
    exists i :: 0 <= i < n && !Survives(c, i, t, present, ts) && x == Evidence(c, i, t, present, ts)
  }

  /** `dropped` reports exactly the non-survivors among the first `n`. */
  ghost predicate Reported(dropped: seq<Superseded>, c: seq<PlannedMove>, n: nat, t: Ref, present: set<Ref>, ts: Dates)
    requires n <= |c|
  {
    forall x :: x in dropped <==> DroppedAmong(x, c, n, t, present, ts)
  }

  lemma ReportNext(dropped: seq<Superseded>, c: seq<PlannedMove>, n: nat, t: Ref, present: set<Ref>, ts: Dates)
    requires n < |c| && Reported(dropped, c, n, t, present, ts)
    ensures Reported(if Survives(c, n, t, present, ts) then dropped else dropped + [Evidence(c, n, t, present, ts)],
                     c, n + 1, t, present, ts)
  {
    var m := n + 1;
    var e := Evidence(c, n, t, present, ts);
    var longer := if Survives(c, n, t, present, ts) then dropped else dropped + [e];
    forall x
      ensures x in longer <==> DroppedAmong(x, c, m, t, present, ts)
    {
      if i :| 0 <= i < m && !Survives(c, i, t, present, ts) && x == Evidence(c, i, t, present, ts) {
        assert i < n ==> DroppedAmong(x, c, n, t, present, ts);
      }
      if i :| 0 <= i < n && !Survives(c, i, t, present, ts) && x == Evidence(c, i, t, present, ts) {
        assert DroppedAmong(x, c, m, t, present, ts);
      }
      assert x in longer <==> x in dropped || (!Survives(c, n, t, present, ts) && x == e);
    }
  }

  lemma {:induction false} RivalsMembers(moves: seq<PlannedMove>, target: Ref)
    ensures forall m :: m in Rivals(moves, target) <==> m in moves && Target(m) == target
    ensures Distinct(moves) ==> Distinct(Rivals(moves, target))
  {
    if moves != [] {
      var init, last := moves[..|moves| - 1], moves[|moves| - 1];
      RivalsMembers(init, target);
      assert moves == init + [last];
      assert Distinct(moves) ==> last !in init;
    }
  }

  lemma RivalsNext(moves: seq<PlannedMove>, i: nat)
    requires i < |moves|
    ensures forall k :: Rivals(moves[..i + 1], k) ==
              Rivals(moves[..i], k) + if Target(moves[i]) == k then [moves[i]] else []
  {
    assert moves[..i + 1][..i] == moves[..i];
  }

  lemma NoRivals()
    ensures forall k :: Rivals([], k) == []
  {
  }

  /** Groups the moves by target. */
  method GroupByTarget(moves: seq<PlannedMove>) returns (byTarget: map<Ref, seq<PlannedMove>>)
    ensures forall t :: t in byTarget ==> byTarget[t] == Rivals(moves, t) && byTarget[t] != []
    ensures forall t :: t !in byTarget ==> Rivals(moves, t) == []
  {
    hide Rivals;
    NoRivals();
    byTarget := map[];
    assert moves[..0] == [];
    for i := 0 to |moves|
      invariant forall t :: t in byTarget ==> byTarget[t] == Rivals(moves[..i], t) && byTarget[t] != []
      invariant forall t :: t !in byTarget ==> Rivals(moves[..i], t) == []
    {
      var t := Target(moves[i]);
      RivalsNext(moves, i);
      byTarget := byTarget[t := (if t in byTarget then byTarget[t] else []) + [moves[i]]];
    }
    assert moves[..|moves|] == moves;
  }

  /** One target's rivals: all dropped if the target exists, else all but the newest. */
  method ResolveTarget(c: seq<PlannedMove>, target: Ref, present: set<Ref>, ts: Dates)
    returns (kept: seq<PlannedMove>, dropped: seq<Superseded>)
    requires c != []
    ensures kept == if target in present then [] else [c[Newest(c, ts, |c|)]]
    ensures Reported(dropped, c, |c|, target, present, ts)
  {
    kept, dropped := [], [];
    assert Reported([], c, 0, target, present, ts);
    if target in present {
      for i := 0 to |c|
        invariant Reported(dropped, c, i, target, present, ts)
      {
        ReportNext(dropped, c, i, target, present, ts);
        dropped := dropped + [Superseded(c[i], DateOf(ts, c[i].source), DateOf(ts, target))];
      }
      return;
    }
    if |c| == 1 {
      ReportNext([], c, 0, target, present, ts);
      return [c[0]], [];
    }
    var best := 0;
    for i := 1 to |c|
      invariant best == Newest(c, ts, i)
    {
      if AgeOr(DateOf(ts, c[i].source)) > AgeOr(DateOf(ts, c[best].source)) {
        best := i;
      }
    }
    for i := 0 to |c|
      invariant kept == if best < i then [c[best]] else []
      invariant Reported(dropped, c, i, target, present, ts)
    {
      ReportNext(dropped, c, i, target, present, ts);
      if i == best {
        kept := kept + [c[i]];
      } else {
        dropped := dropped + [Superseded(c[i], DateOf(ts, c[i].source), DateOf(ts, c[best].source))];
      }
    }
  }

  method ResolveMoveCollisions(moves: seq<PlannedMove>, present: set<Ref>, ts: Dates)
    returns (kept: seq<PlannedMove>, superseded: seq<Superseded>)
    ensures forall m :: m in kept <==> IsKept(m, moves, present, ts)
    ensures forall x :: x in superseded <==> IsDropped(x, moves, present, ts)
    ensures forall i, j :: 0 <= i < j < |kept| ==> Target(kept[i]) != Target(kept[j])
  {
    hide IsKept, IsDropped, Rivals, Reported, Target, Newest;
    var byTarget := GroupByTarget(moves);
    NothingResolved(moves, byTarget, present, ts);
    var left := byTarget.Keys;
    kept, superseded := [], [];
    while left != {}
      invariant left <= byTarget.Keys
      invariant forall m :: m in kept <==> IsKept(m, moves, present, ts) && Target(m) !in left
      invariant forall x :: x in superseded <==> IsDropped(x, moves, present, ts) && Target(x.move) !in left
      invariant forall i, j :: 0 <= i < j < |kept| ==> Target(kept[i]) != Target(kept[j])
      decreases left
    {
      var t :| t in left;
      var c := byTarget[t];
      var k, d := ResolveTarget(c, t, present, ts);
      TargetResolved(moves, t, present, ts, k, d);
      left := left - {t};
      kept, superseded := kept + k, superseded + d;
    }
  }

  /** A target nobody moves to has nothing to keep or report. */
  lemma NothingResolved(moves: seq<PlannedMove>, byTarget: map<Ref, seq<PlannedMove>>, present: set<Ref>, ts: Dates)
    requires forall t :: t !in byTarget ==> Rivals(moves, t) == []
    ensures forall m :: IsKept(m, moves, present, ts) ==> Target(m) in byTarget
    ensures forall x :: IsDropped(x, moves, present, ts) ==> Target(x.move) in byTarget
  {
  }

  /** What is kept and reported for one target is what the definitions say of its moves. */
  lemma TargetResolved(moves: seq<PlannedMove>, t: Ref, present: set<Ref>, ts: Dates,
                       kept: seq<PlannedMove>, dropped: seq<Superseded>)
    requires var c := Rivals(moves, t);
             && c != [] && kept == (if t in present then [] else [c[Newest(c, ts, |c|)]])
             && Reported(dropped, c, |c|, t, present, ts)
    ensures forall m :: m in kept <==> IsKept(m, moves, present, ts) && Target(m) == t
    ensures forall x :: x in dropped <==> IsDropped(x, moves, present, ts) && Target(x.move) == t
    ensures |kept| <= 1
  {
    RivalsMembers(moves, t);
    hide Rivals, Newest;
    var c := Rivals(moves, t);
    assert c[Newest(c, ts, |c|)] in c;
    forall x | x in dropped
      ensures Target(x.move) == t
    {
      assert x.move in c;
    }
  }
}
