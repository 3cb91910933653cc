/** The in-flight map: leader election by a lock-free look and a locked re-check, and the release
    of leadership, as a protocol over any number of actors. Each shared access is one step. */
module Inflight {
  import opened Lex

  type Actor = nat
  type Token = nat
  type Table = map<string, Token>

  const SHARD_COUNT: nat := 64

  /** One shard: the published snapshot and the holder of its write lock. */
  datatype Shard = Shard(data: Table, writer: Option<Actor>)

  /** Where one actor stands. A token stands for the guard's wake-up handle. */
  datatype Local =
    | Idle
    | Missed(key: string)
    | Locked(key: string)
    | Loaded(key: string, snapshot: Table)
    | Refusing(key: string, token: Token)
    | Refused(key: string, token: Token)
    | Stored(key: string, token: Token)
    | Filling(key: string, token: Token)
    | Filled(key: string, token: Token)
    | DropLocked(key: string, token: Token)
    | DropLoaded(key: string, token: Token, snapshot: Table)
    | DropStored(key: string, token: Token)
    | Done

  /** A cache fill runs from the winning claim to the end of its commit, failed or not. */
  datatype Event = Began(key: string, who: Actor) | Ended(key: string, who: Actor)

  datatype State = State(shards: seq<Shard>, locals: map<Actor, Local>, fills: seq<Event>)

  function ShardOf(hash: string -> nat, key: string): nat {
    hash(key) % SHARD_COUNT
  }

  function At(s: State, a: Actor): Local {
    if a in s.locals then s.locals[a] else Idle
  }

  ghost predicate Init(s: State) {
    && |s.shards| == SHARD_COUNT
    && (forall i :: 0 <= i < SHARD_COUNT ==> s.shards[i] == Shard(map[], None))
    && s.locals == map[] && s.fills == []
  }

  /** What an actor may do next with its key: every branch of a claim and of a guard's release. */
  datatype Move =
    | Look(wanted: string)
    | TakeLock
    | Reload
    | Publish(minted: Token)
    | Return
    | Commit
    | TakeDropLock
    | DropReload
    | DropPublish
    | Wake

  /** The only parts of the state a move can touch: the actor's own place, one shard, the log. */
  datatype Change = Change(local: Local, shard: Shard, event: Option<Event>)

  /** The outcome of a move on the actor's shard, if it can be made at all. */
  function Outcome(a: Actor, l: Local, shard: Shard, m: Move): Option<Change> {
    match m
    case Look(key) =>
      if l != Idle then None
      else if key in shard.data then Some(Change(Refused(key, shard.data[key]), shard, None))
      else Some(Change(Missed(key), shard, None))
    case TakeLock =>
      if !l.Missed? || shard.writer.Some? then None
      else Some(Change(Locked(l.key), shard.(writer := Some(a)), None))
    case Reload =>
      if !l.Locked? then None
      else if l.key in shard.data
      then Some(Change(Refusing(l.key, shard.data[l.key]), shard, None))
      else Some(Change(Loaded(l.key, shard.data), shard, None))
    case Publish(token) =>
      if !l.Loaded? then None
      else Some(Change(Stored(l.key, token), shard.(data := l.snapshot[l.key := token]), None))
    case Return =>
      if l.Refusing? then Some(Change(Refused(l.key, l.token), shard.(writer := None), None))
      else if l.Stored?
      then Some(Change(Filling(l.key, l.token), shard.(writer := None), Some(Began(l.key, a))))
      else None
    case Commit =>
      if !l.Filling? then None
      else Some(Change(Filled(l.key, l.token), shard, Some(Ended(l.key, a))))
    case TakeDropLock =>
      if !l.Filled? || shard.writer.Some? then None
      else Some(Change(DropLocked(l.key, l.token), shard.(writer := Some(a)), None))
    case DropReload =>
      if !l.DropLocked? then None
      else Some(Change(DropLoaded(l.key, l.token, shard.data), shard, None))
    case DropPublish =>
      if !l.DropLoaded? then None
      else Some(Change(DropStored(l.key, l.token), shard.(data := l.snapshot - {l.key}), None))
    case Wake =>
      if !l.DropStored? then None
      else Some(Change(Done, shard.(writer := None), None))
  }

  function KeyOf(l: Local, m: Move): string {
    if m.Look? then m.wanted
    else if l.Idle? || l.Done? then ""
    else l.key
  }

  predicate CanMove(hash: string -> nat, s: State, a: Actor, m: Move) {
    var i := ShardOf(hash, KeyOf(At(s, a), m));
    i < |s.shards| && Outcome(a, At(s, a), s.shards[i], m).Some?
  }

  function Moved(hash: string -> nat, s: State, a: Actor, m: Move): State
    requires CanMove(hash, s, a, m)
  {
    var i := ShardOf(hash, KeyOf(At(s, a), m));
    var c := Outcome(a, At(s, a), s.shards[i], m).value;
    State(s.shards[i := c.shard], s.locals[a := c.local],
          s.fills + if c.event.Some? then [c.event.value] else [])
  }

  ghost predicate Step(hash: string -> nat, s: State, t: State) {
    exists a: Actor, m :: CanMove(hash, s, a, m) && t == Moved(hash, s, a, m)
  }

  ghost predicate Run(hash: string -> nat, states: seq<State>) {
    && states != [] && Init(states[0])
    && forall i :: 0 <= i < |states| - 1 ==> Step(hash, states[i], states[i + 1])
  }

  // --- What every reachable state keeps ---

  predicate HoldsLock(l: Local) {
    l.Locked? || l.Loaded? || l.Refusing? || l.Stored? || l.DropLocked? || l.DropLoaded? || l.DropStored?
  }

  /** Leadership lasts from the store that adds the key to the store that removes it. */
  predicate Leads(l: Local) {
    l.Stored? || l.Filling? || l.Filled? || l.DropLocked? || l.DropLoaded?
  }

  predicate LeadsKey(s: State, a: Actor, key: string) {
    Leads(At(s, a)) && At(s, a).key == key
  }

  ghost predicate LocksHeld(hash: string -> nat, s: State) {
    forall a: Actor :: HoldsLock(At(s, a)) ==>
                  var i := ShardOf(hash, At(s, a).key);
                  i < |s.shards| && s.shards[i].writer == Some(a)
  }

  /** A shard is locked only while its holder still has to release it. */
  ghost predicate LocksReleased(hash: string -> nat, s: State) {
    forall i :: 0 <= i < |s.shards| && s.shards[i].writer.Some? ==>
                  var a := s.shards[i].writer.value;
                  HoldsLock(At(s, a)) && ShardOf(hash, At(s, a).key) == i
  }

  /** What a lock holder loaded is still what is published. */
  ghost predicate SnapshotsCurrent(hash: string -> nat, s: State) {
    forall a: Actor :: At(s, a).Loaded? || At(s, a).DropLoaded? ==>
                  var i := ShardOf(hash, At(s, a).key);
                  && i < |s.shards| && At(s, a).snapshot == s.shards[i].data
                  && (At(s, a).Loaded? ==> At(s, a).key !in s.shards[i].data)
  }

  ghost predicate LeadersListed(hash: string -> nat, s: State) {
    forall a: Actor :: Leads(At(s, a)) ==>
                  var i := ShardOf(hash, At(s, a).key);
                  && i < |s.shards| && At(s, a).key in s.shards[i].data
                  && s.shards[i].data[At(s, a).key] == At(s, a).token
  }

  ghost predicate OneLeader(s: State) {
    forall a: Actor, b: Actor, key :: LeadsKey(s, a, key) && LeadsKey(s, b, key) ==> a == b
  }

  predicate Listed(s: State, i: nat, key: string) {
    i < |s.shards| && key in s.shards[i].data
  }

  ghost predicate ListedAreLed(hash: string -> nat, s: State) {
    forall i, key :: Listed(s, i, key) ==> i == ShardOf(hash, key) && exists a: Actor :: LeadsKey(s, a, key)
  }

  ghost predicate Inv(hash: string -> nat, s: State) {
    && |s.shards| == SHARD_COUNT
    && LocksHeld(hash, s) && LocksReleased(hash, s) && SnapshotsCurrent(hash, s)
    && LeadersListed(hash, s) && OneLeader(s) && ListedAreLed(hash, s)
  }

  /** A move changes the published data only as the holder of the shard's lock, and then only at
      the actor's own key: no update to another key is ever lost. */
  lemma NoLostUpdate(hash: string -> nat, s: State, a: Actor, m: Move, i: nat, key: string)
    requires Inv(hash, s) && CanMove(hash, s, a, m) && i < SHARD_COUNT
    requires key != KeyOf(At(s, a), m) || !(m.Publish? || m.DropPublish?)
    ensures var t := Moved(hash, s, a, m);
            && |t.shards| == SHARD_COUNT
            && (key in t.shards[i].data <==> key in s.shards[i].data)
            && (key in s.shards[i].data ==> t.shards[i].data[key] == s.shards[i].data[key])
  {
  }

  lemma LocksKept(hash: string -> nat, s: State, a: Actor, m: Move)
    requires Inv(hash, s) && CanMove(hash, s, a, m)
    ensures LocksHeld(hash, Moved(hash, s, a, m)) && LocksReleased(hash, Moved(hash, s, a, m))
  {
    hide SnapshotsCurrent, LeadersListed, OneLeader, ListedAreLed;
    var t := Moved(hash, s, a, m);
    forall i | 0 <= i < |t.shards| && t.shards[i].writer.Some?
      ensures var b := t.shards[i].writer.value;
              HoldsLock(At(t, b)) && ShardOf(hash, At(t, b).key) == i
    {
      var b := t.shards[i].writer.value;
      if b == a && s.shards[i].writer == Some(a) {
        assert ShardOf(hash, At(s, a).key) == i && !m.Look?;
      }
    }
  }

  lemma SnapshotsKept(hash: string -> nat, s: State, a: Actor, m: Move)
    requires Inv(hash, s) && CanMove(hash, s, a, m)
    ensures SnapshotsCurrent(hash, Moved(hash, s, a, m))
  {
    hide LeadersListed, OneLeader, ListedAreLed;
    var t := Moved(hash, s, a, m);
    forall b: Actor | At(t, b).Loaded? || At(t, b).DropLoaded?
      ensures var i := ShardOf(hash, At(t, b).key);
              && At(t, b).snapshot == t.shards[i].data
              && (At(t, b).Loaded? ==> At(t, b).key !in t.shards[i].data)
    {
      if b != a {
        assert HoldsLock(At(s, b));
        assert HoldsLock(At(s, a)) ==> s.shards[ShardOf(hash, At(s, a).key)].writer == Some(a);
      }
    }
  }

  lemma LeadersKept(hash: string -> nat, s: State, a: Actor, m: Move)
    requires Inv(hash, s) && CanMove(hash, s, a, m)
    ensures LeadersListed(hash, Moved(hash, s, a, m)) && OneLeader(Moved(hash, s, a, m))
  {
    var t := Moved(hash, s, a, m);
    forall b: Actor | Leads(At(t, b))
      ensures var i := ShardOf(hash, At(t, b).key);
              && At(t, b).key in t.shards[i].data
              && t.shards[i].data[At(t, b).key] == At(t, b).token
    {
      if b != a {
        LeaderUntouched(hash, s, a, m, b);
        NoLostUpdate(hash, s, a, m, ShardOf(hash, At(s, b).key), At(s, b).key);
      }
    }
    forall b: Actor, c: Actor, key | LeadsKey(t, b, key) && LeadsKey(t, c, key)
      ensures b == c
    {
      if b != a && c != a {
        assert LeadsKey(s, b, key) && LeadsKey(s, c, key);
      } else if b != a {
        NoUsurper(hash, s, a, m, b, key);
      } else if c != a {
        NoUsurper(hash, s, a, m, c, key);
      }
    }
  }

  lemma NoUsurper(hash: string -> nat, s: State, a: Actor, m: Move, b: Actor, key: string)
    requires Inv(hash, s) && CanMove(hash, s, a, m) && b != a && LeadsKey(s, b, key)
    ensures !LeadsKey(Moved(hash, s, a, m), a, key)
  {
    LeaderUntouched(hash, s, a, m, b);
    if LeadsKey(s, a, key) {
      assert false;
    }
  }

  /** Nobody publishes over another's key. */
  lemma LeaderUntouched(hash: string -> nat, s: State, a: Actor, m: Move, b: Actor)
    requires Inv(hash, s) && CanMove(hash, s, a, m) && b != a && Leads(At(s, b))
    ensures m.Publish? || m.DropPublish? ==> At(s, b).key != KeyOf(At(s, a), m)
  {
    if m.Publish? {
      assert At(s, a).Loaded?;
    } else if m.DropPublish? && At(s, b).key == At(s, a).key {
      assert LeadsKey(s, a, At(s, a).key) && LeadsKey(s, b, At(s, a).key);
    }
  }

  lemma ListedKept(hash: string -> nat, s: State, a: Actor, m: Move)
    requires Inv(hash, s) && CanMove(hash, s, a, m)
    ensures ListedAreLed(hash, Moved(hash, s, a, m))
  {
    var t := Moved(hash, s, a, m);
    forall i, key | Listed(t, i, key)
      ensures i == ShardOf(hash, key) && exists b: Actor :: LeadsKey(t, b, key)
    {
      if key == KeyOf(At(s, a), m) && m.Publish? {
        ListedBefore(hash, s, a, m, i, key);
        assert LeadsKey(t, a, key);
      } else if key == KeyOf(At(s, a), m) && m.DropPublish? {
        ListedBefore(hash, s, a, m, i, key);
      } else {
        NoLostUpdate(hash, s, a, m, i, key);
        assert Listed(s, i, key);
        var b: Actor :| LeadsKey(s, b, key);
        assert LeadsKey(t, b, key);
      }
    }
  }

  /** The publishing actor's own key: listed only in its own shard, and only by adding it. */
  lemma ListedBefore(hash: string -> nat, s: State, a: Actor, m: Move, i: nat, key: string)
    requires Inv(hash, s) && CanMove(hash, s, a, m) && key == KeyOf(At(s, a), m)
    requires m.Publish? || m.DropPublish?
    requires Listed(Moved(hash, s, a, m), i, key)
    ensures i == ShardOf(hash, key) && m.Publish?
  {
    if i != ShardOf(hash, key) {
      assert Listed(s, i, key);
    }
  }

  lemma StepKeepsInv(hash: string -> nat, s: State, a: Actor, m: Move)
    requires Inv(hash, s) && CanMove(hash, s, a, m)
    ensures Inv(hash, Moved(hash, s, a, m))
  {
    LocksKept(hash, s, a, m);
    SnapshotsKept(hash, s, a, m);
    LeadersKept(hash, s, a, m);
    ListedKept(hash, s, a, m);
  }

  // --- Whole runs ---

  /** The fills in progress according to the log. */
  function Open(fills: seq<Event>): map<string, Actor> {
    if fills == [] then map[]
    else
      var before := Open(fills[..|fills| - 1]);
      match fills[|fills| - 1]
      case Began(key, a) => before[key := a]
      case Ended(key, a) => before - {key}
  }

  /** Fills of one key never overlap: each begins with none open and ends as the one open. */
  ghost predicate NeverOverlap(fills: seq<Event>) {
    forall i :: 0 <= i < |fills| ==> Fits(Open(fills[..i]), fills[i])
  }

  predicate Fits(running: map<string, Actor>, e: Event) {
    match e
    case Began(key, a) => key !in running
    case Ended(key, a) => key in running && running[key] == a
  }

  predicate Fills(s: State, a: Actor, key: string) {
    At(s, a).Filling? && At(s, a).key == key
  }

  predicate Runs(fills: seq<Event>, a: Actor, key: string) {
    key in Open(fills) && Open(fills)[key] == a
  }

  ghost predicate LogAgrees(s: State) {
    forall a: Actor, key :: Runs(s.fills, a, key) <==> Fills(s, a, key)
  }

  lemma OpenSnoc(fills: seq<Event>, e: Event)
    requires Fits(Open(fills), e) && NeverOverlap(fills)
    ensures NeverOverlap(fills + [e])
    ensures forall a: Actor :: Runs(fills + [e], a, e.key) <==> e == Began(e.key, a)
    ensures forall a: Actor, key :: key != e.key ==> (Runs(fills + [e], a, key) <==> Runs(fills, a, key))
  {
    var more := fills + [e];
    assert more[..|fills|] == fills;
    forall i | 0 <= i < |more|
      ensures Fits(Open(more[..i]), more[i])
    {
      assert i < |fills| ==> more[..i] == fills[..i] && more[i] == fills[i];
    }
  }

  lemma LogKept(hash: string -> nat, s: State, a: Actor, m: Move)
    requires Inv(hash, s) && CanMove(hash, s, a, m) && LogAgrees(s) && NeverOverlap(s.fills)
    ensures LogAgrees(Moved(hash, s, a, m)) && NeverOverlap(Moved(hash, s, a, m).fills)
  {
    hide Open, NeverOverlap, LocksHeld, SnapshotsCurrent, LeadersListed, ListedAreLed;
    var t := Moved(hash, s, a, m);
    assert forall b: Actor, key :: b != a ==> (Fills(t, b, key) <==> Fills(s, b, key));
    if (m.Return? && At(s, a).Stored?) || m.Commit? {
      var key := At(s, a).key;
      var e := t.fills[|s.fills|];
      assert t.fills == s.fills + [e];
      assert LeadsKey(s, a, key);
      forall b: Actor | Fills(s, b, key)
        ensures b == a
      {
        assert LeadsKey(s, b, key);
      }
      OpenFits(s, a, e);
      OpenSnoc(s.fills, e);
    } else {
      assert t.fills == s.fills + [] == s.fills;
      assert forall key :: Fills(t, a, key) <==> Fills(s, a, key);
    }
  }

  lemma OpenFits(s: State, a: Actor, e: Event)
    requires LogAgrees(s)
    requires forall b: Actor :: Fills(s, b, e.key) ==> b == a
    requires (e == Began(e.key, a) && !Fills(s, a, e.key)) || (e == Ended(e.key, a) && Fills(s, a, e.key))
    ensures Fits(Open(s.fills), e)
  {
    if e.key in Open(s.fills) {
      assert Runs(s.fills, Open(s.fills)[e.key], e.key);
    }
    assert Fills(s, a, e.key) ==> Runs(s.fills, a, e.key);
  }

  lemma {:induction false} RunKeepsInv(hash: string -> nat, states: seq<State>)
    requires Run(hash, states)
    ensures var s := states[|states| - 1];
            Inv(hash, s) && LogAgrees(s) && NeverOverlap(s.fills)
  {
    var n := |states| - 1;
    if n > 0 {
      var before := states[..n];
      assert before[0] == states[0];
      forall i | 0 <= i < |before| - 1
        ensures Step(hash, before[i], before[i + 1])
      {
        assert Step(hash, states[i], states[i + 1]);
      }
      RunKeepsInv(hash, before);
      assert Step(hash, states[n - 1], states[n]);
      var a: Actor, m :| CanMove(hash, states[n - 1], a, m) && states[n] == Moved(hash, states[n - 1], a, m);
      StepKeepsInv(hash, states[n - 1], a, m);
      LogKept(hash, states[n - 1], a, m);
    }
  }

  /** In every reachable state a key is in the map exactly while it is led, by one actor alone,
      whose handle is the one waiters are given. */
  lemma SingleLeader(hash: string -> nat, states: seq<State>, key: string)
    requires Run(hash, states)
    ensures var s := states[|states| - 1];
            && (Listed(s, ShardOf(hash, key), key) <==> exists a: Actor :: LeadsKey(s, a, key))
            && (forall a: Actor, b: Actor :: LeadsKey(s, a, key) && LeadsKey(s, b, key) ==> a == b)
            && (forall a: Actor :: LeadsKey(s, a, key) ==>
                              && Listed(s, ShardOf(hash, key), key)
                              && s.shards[ShardOf(hash, key)].data[key] == At(s, a).token)
  {
    RunKeepsInv(hash, states);
  }

  /** Over a whole run the cache fills of one key follow one another, never overlapping. */
  lemma FillsNeverOverlap(hash: string -> nat, states: seq<State>)
    requires Run(hash, states)
    ensures NeverOverlap(states[|states| - 1].fills)
  {
    RunKeepsInv(hash, states);
  }

  /** An actor is refused only while another leads that key, and gets that leader's handle. */
  lemma RefusalIsHonest(hash: string -> nat, states: seq<State>, a: Actor, m: Move)
    requires Run(hash, states)
    requires var s := states[|states| - 1];
             && CanMove(hash, s, a, m) && (m.Look? || m.Reload?)
             && (At(Moved(hash, s, a, m), a).Refused? || At(Moved(hash, s, a, m), a).Refusing?)
    ensures var s := states[|states| - 1];
            var l := At(Moved(hash, s, a, m), a);
            exists b: Actor :: b != a && LeadsKey(s, b, l.key) && At(s, b).token == l.token
  {
    RunKeepsInv(hash, states);
    var s := states[|states| - 1];
    var key := KeyOf(At(s, a), m);
    assert Listed(s, ShardOf(hash, key), key);
    var b: Actor :| LeadsKey(s, b, key);
  }

  /** Nobody is stuck: an actor on its way can move, or the one holding its shard's lock can. */
  lemma SomeoneMoves(hash: string -> nat, states: seq<State>, a: Actor)
    requires Run(hash, states)
    requires var l := At(states[|states| - 1], a); !l.Idle? && !l.Refused? && !l.Done?
    ensures var s := states[|states| - 1];
            |s.shards| == SHARD_COUNT
            && exists b: Actor, m :: && CanMove(hash, s, b, m)
                                  && (b == a || s.shards[ShardOf(hash, At(s, a).key)].writer == Some(b))
  {
    RunKeepsInv(hash, states);
    var s := states[|states| - 1];
    var i := ShardOf(hash, At(s, a).key);
    var b := if (At(s, a).Missed? || At(s, a).Filled?) && s.shards[i].writer.Some? then s.shards[i].writer.value else a;
    var m := NextMove(At(s, b));
    assert CanMove(hash, s, b, m);
  }

  /** What an actor under way does next, given the lock where it needs it. */
  function NextMove(l: Local): Move {
    match l
    case Idle => Look("")
    case Missed(_) => TakeLock
    case Locked(_) => Reload
    case Loaded(_, _) => Publish(0)
    case Refusing(_, _) => Return
    case Refused(_, _) => Return
    case Stored(_, _) => Return
    case Filling(_, _) => Commit
    case Filled(_, _) => TakeDropLock
    case DropLocked(_, _) => DropReload
    case DropLoaded(_, _, _) => DropPublish
    case DropStored(_, _) => Wake
    case Done => Wake
  }

  /** One move of a scripted run, with everything the script needs to know about the state. */
  lemma Play(hash: string -> nat, states: seq<State>, key: string, a: Actor, m: Move)
    returns (more: seq<State>)
    requires Run(hash, states) && KeyOf(At(states[|states| - 1], a), m) == key
    requires CanMove(hash, states[|states| - 1], a, m)
    ensures Run(hash, more) && more[..|more| - 1] == states
    ensures var i := ShardOf(hash, key);
            var s, t := states[|states| - 1], more[|more| - 1];
            var c := Outcome(a, At(s, a), s.shards[i], m).value;
            && i < |s.shards| == |t.shards| && t.shards[i] == c.shard && At(t, a) == c.local
            && forall b: Actor :: b != a ==> At(t, b) == At(s, b)
  {
    more := states + [Moved(hash, states[|states| - 1], a, m)];
  }

  lemma TwoMiss(hash: string -> nat, key: string) returns (states: seq<State>)
    ensures Run(hash, states)
    ensures var s := states[|states| - 1];
            && |s.shards| == SHARD_COUNT && s.shards[ShardOf(hash, key)] == Shard(map[], None)
            && At(s, 0) == Missed(key) && At(s, 1) == Missed(key)
  {
    states := [State(seq(SHARD_COUNT, _ => Shard(map[], None)), map[], [])];
    assert Run(hash, states);
    hide Run, Moved;
    states := Play(hash, states, key, 0, Look(key));
    states := Play(hash, states, key, 1, Look(key));
  }

  lemma TwoMissOneLeads(hash: string -> nat, key: string) returns (states: seq<State>)
    ensures Run(hash, states)
    ensures var s := states[|states| - 1];
            && |s.shards| == SHARD_COUNT && s.shards[ShardOf(hash, key)] == Shard(map[key := 7], None)
            && At(s, 0) == Filling(key, 7) && At(s, 1) == Missed(key)
  {
    hide Run, Moved;
    states := TwoMiss(hash, key);
    states := Play(hash, states, key, 0, TakeLock);
    states := Play(hash, states, key, 0, Reload);
    states := Play(hash, states, key, 0, Publish(7));
    states := Play(hash, states, key, 0, Return);
  }

  /** Why the check is repeated under the lock: the first look can be stale. Two actors miss, one
      leads, and only the re-check turns the other away. */
  lemma LookCanBeStale(hash: string -> nat, key: string) returns (states: seq<State>)
    ensures Run(hash, states) && |states| >= 2
    ensures At(states[|states| - 2], 1) == Locked(key) && LeadsKey(states[|states| - 2], 0, key)
    ensures At(states[|states| - 1], 1) == Refusing(key, 7)
  {
    hide Run, Moved;
    states := TwoMissOneLeads(hash, key);
    states := Play(hash, states, key, 1, TakeLock);
    states := Play(hash, states, key, 1, Reload);
  }
}
