/** Concurrent `put_artifact` and `delete_artifact` calls over one artifact table, and the
    directory deltas their callers send. Each client action is one atomic KV operation or
    one send; any interleaving of any number of clients is a run. */
module ArtifactDeltas {
  import opened Lex
  import opened Sums
  import Paths

  const MAX_RETRIES: nat := 3

  datatype Key = Key(repo: string, path: Paths.Path)

  datatype Dir = Dir(repo: string, path: Paths.Path)

  /** `dir_changed` charges the parent directory of the normalised path. */
  function DirOf(k: Key): Dir {
    Dir(k.repo, Paths.ParentDir(k.path))
  }

  datatype Record = Record(size: nat, content: string)

  datatype Stored = Stored(rec: Record, version: nat)

  /** How a store stamps versions. Both shipped backends restart a key at 1 after its
      deletion; a store that never reuses a stamp is the other possibility. */
  datatype Stamping = Restarting | NeverReused

  datatype Delta = Delta(client: nat, dir: Dir, count: int, bytes: int)

  datatype Client =
    | Reading(key: Key, rec: Record, attempt: nat)
    | Writing(key: Key, rec: Record, attempt: nat, seen: Option<Stored>)
    | Deleting(key: Key)
    | Owing(dir: Dir, count: int, bytes: int)
    | Done
    | Failed

  /** `drift` is bookkeeping of the model: for every conditional write that replaced a
      record other than the one its caller had read, the bytes the caller mis-stated. */
  datatype State = State(
    table: map<Key, Stored>,
    clients: map<nat, Client>,
    log: seq<Delta>,
    drift: seq<Delta>,
    clock: nat)

  datatype Step =
    | StartPut(client: nat, repo: string, rawPath: Paths.Path, rec: Record)
    | StartDelete(client: nat, repo: string, rawPath: Paths.Path)
    | Read(client: nat)
    | CompareAndSet(client: nat)
    | DeleteReturning(client: nat)
    | Send(client: nat)

  const EMPTY := State(map[], map[], [], [], 1)

  ghost predicate Enabled(s: State, a: Step) {
    match a
    case StartPut(c, _, _, _) => c !in s.clients
    case StartDelete(c, _, _) => c !in s.clients
    case Read(c) => c in s.clients && s.clients[c].Reading?
    case CompareAndSet(c) => c in s.clients && s.clients[c].Writing?
    case DeleteReturning(c) => c in s.clients && s.clients[c].Deleting?
    case Send(c) => c in s.clients && s.clients[c].Owing?
  }

  function Lookup(t: map<Key, Stored>, k: Key): Option<Stored> {
    if k in t then Some(t[k]) else None
  }

  /** `put_if_version`: insert-only for `None`, else the current stamp must match. */
  predicate Matches(current: Option<Stored>, seen: Option<Stored>) {
    if seen.None? then current.None?
    else current.Some? && current.value.version == seen.value.version
  }

  function NewVersion(s: State, seen: Option<Stored>, stamping: Stamping): nat {
    match stamping
    case Restarting => if seen.Some? then seen.value.version + 1 else 1
    case NeverReused => s.clock
  }

  function SizeOf(o: Option<Stored>): int {
    if o.Some? then o.value.rec.size else 0
  }

  ghost function Apply(s: State, a: Step, stamping: Stamping): State
    requires Enabled(s, a)
  {
    match a
    case StartPut(c, repo, rawPath, rec) =>
      s.(clients := s.clients[c := if rawPath == [] then Failed
                                   else Reading(Key(repo, Paths.Normalize(rawPath)), rec, 0)])
    case StartDelete(c, repo, rawPath) =>
      s.(clients := s.clients[c := Deleting(Key(repo, Paths.Normalize(rawPath)))])
    case Read(c) =>
      var me := s.clients[c];
      s.(clients := s.clients[c := Writing(me.key, me.rec, me.attempt, Lookup(s.table, me.key))])
    case CompareAndSet(c) =>
      var me := s.clients[c];
      var current := Lookup(s.table, me.key);
      if Matches(current, me.seen) then
        var count := if me.seen.None? then 1 else 0;
        var wrong := SizeOf(current) - SizeOf(me.seen);
        State(
          s.table[me.key := Stored(me.rec, NewVersion(s, me.seen, stamping))],
          s.clients[c := Owing(DirOf(me.key), count, me.rec.size - SizeOf(me.seen))],
          s.log,
          if wrong == 0 then s.drift else s.drift + [Delta(c, DirOf(me.key), 0, wrong)],
          s.clock + 1)
      else if me.attempt + 1 < MAX_RETRIES then
        s.(clients := s.clients[c := Reading(me.key, me.rec, me.attempt + 1)])
      else
        s.(clients := s.clients[c := Failed])
    case DeleteReturning(c) =>
      var me := s.clients[c];
      if me.key in s.table then
        s.(table := s.table - {me.key},
           clients := s.clients[c := Owing(DirOf(me.key), -1, 0 - s.table[me.key].rec.size as int)])
      else
        s.(clients := s.clients[c := Done])
    case Send(c) =>
      var me := s.clients[c];
      s.(clients := s.clients[c := Done], log := s.log + [Delta(c, me.dir, me.count, me.bytes)])
  }

  // --- Runs ---

  ghost predicate IsRun(s: State, steps: seq<Step>, stamping: Stamping)
    decreases |steps|
  {
    steps == [] || (Enabled(s, steps[0]) && IsRun(Apply(s, steps[0], stamping), steps[1..], stamping))
  }

  ghost function After(s: State, steps: seq<Step>, stamping: Stamping): State
    requires IsRun(s, steps, stamping)
    decreases |steps|
  {
    if steps == [] then s else After(Apply(s, steps[0], stamping), steps[1..], stamping)
  }

  // --- What is conserved ---

  /** The record counts towards the directory its path lies directly in. */
  ghost predicate InDir(k: Key, d: Dir) {
    k.repo == d.repo && Paths.ParentDir(k.path) == d.path
  }

  lemma DirOfIs(k: Key, d: Dir)
    ensures DirOf(k) == d <==> InDir(k, d)
  {
  }

  ghost function LiveCount(s: State, d: Dir): int {
    Sum(s.table, (k: Key, v: Stored) => if InDir(k, d) then 1 else 0)
  }

  ghost function LiveBytes(s: State, d: Dir): int {
    Sum(s.table, (k: Key, v: Stored) => if InDir(k, d) then v.rec.size else 0)
  }

  ghost function OwedCount(s: State, d: Dir): int {
    Sum(s.clients, (c: nat, v: Client) => if v.Owing? && v.dir == d then v.count else 0)
  }

  ghost function OwedBytes(s: State, d: Dir): int {
    Sum(s.clients, (c: nat, v: Client) => if v.Owing? && v.dir == d then v.bytes else 0)
  }

  ghost function SentCount(log: seq<Delta>, d: Dir): int {
    Total(log, (x: Delta) => if x.dir == d then x.count else 0)
  }

  ghost function SentBytes(log: seq<Delta>, d: Dir): int {
    Total(log, (x: Delta) => if x.dir == d then x.bytes else 0)
  }

  ghost predicate Conserved(s: State, d: Dir) {
    && SentCount(s.log, d) + OwedCount(s, d) == LiveCount(s, d)
    && SentBytes(s.log, d) + OwedBytes(s, d) == LiveBytes(s, d) + SentBytes(s.drift, d)
  }

  lemma ClientPut(s: State, c: nat, v: Client, d: Dir)
    ensures var s' := s.(clients := s.clients[c := v]);
            var old' := if c in s.clients then s.clients[c] else Done;
            && OwedCount(s', d) == OwedCount(s, d)
               - (if old'.Owing? && old'.dir == d then old'.count else 0)
               + (if v.Owing? && v.dir == d then v.count else 0)
            && OwedBytes(s', d) == OwedBytes(s, d)
               - (if old'.Owing? && old'.dir == d then old'.bytes else 0)
               + (if v.Owing? && v.dir == d then v.bytes else 0)
  {
    SumPut(s.clients, (c: nat, v: Client) => if v.Owing? && v.dir == d then v.count else 0, c, v);
    SumPut(s.clients, (c: nat, v: Client) => if v.Owing? && v.dir == d then v.bytes else 0, c, v);
  }

  lemma TablePut(s: State, k: Key, v: Stored, d: Dir)
    ensures var s' := s.(table := s.table[k := v]);
            && LiveCount(s', d) == LiveCount(s, d) + (if InDir(k, d) && k !in s.table then 1 else 0)
            && LiveBytes(s', d) == LiveBytes(s, d)
               + (if InDir(k, d) then v.rec.size - SizeOf(Lookup(s.table, k)) else 0)
  {
    SumPut(s.table, (k: Key, v: Stored) => if InDir(k, d) then 1 else 0, k, v);
    SumPut(s.table, (k: Key, v: Stored) => if InDir(k, d) then v.rec.size else 0, k, v);
  }

  lemma TableRemove(s: State, k: Key, d: Dir)
    requires k in s.table
    ensures var s' := s.(table := s.table - {k});
            && LiveCount(s', d) == LiveCount(s, d) - (if InDir(k, d) then 1 else 0)
            && LiveBytes(s', d) == LiveBytes(s, d) - (if InDir(k, d) then s.table[k].rec.size else 0)
  {
    SumAt(s.table, (k: Key, v: Stored) => if InDir(k, d) then 1 else 0, k);
    SumAt(s.table, (k: Key, v: Stored) => if InDir(k, d) then v.rec.size else 0, k);
  }

  lemma LogSnoc(log: seq<Delta>, x: Delta, d: Dir)
    ensures SentCount(log + [x], d) == SentCount(log, d) + (if x.dir == d then x.count else 0)
    ensures SentBytes(log + [x], d) == SentBytes(log, d) + (if x.dir == d then x.bytes else 0)
  {
    TotalSnoc(log, x, (x: Delta) => if x.dir == d then x.count else 0);
    TotalSnoc(log, x, (x: Delta) => if x.dir == d then x.bytes else 0);
  }

  lemma StepConserves(s: State, a: Step, stamping: Stamping, d: Dir)
    requires Conserved(s, d) && Enabled(s, a)
    ensures Conserved(Apply(s, a, stamping), d)
  {
    hide SentCount, SentBytes, OwedCount, OwedBytes, LiveCount, LiveBytes, DirOf, InDir;
    var s' := Apply(s, a, stamping);
    forall k
      ensures DirOf(k) == d <==> InDir(k, d)
    {
      DirOfIs(k, d);
    }
    ClientPut(s, a.client, s'.clients[a.client], d);
    SameSums(s', s.(clients := s'.clients), s', d);
    match a {
      case CompareAndSet(c) =>
        var me := s.clients[c];
        var current := Lookup(s.table, me.key);
        if Matches(current, me.seen) {
          TablePut(s, me.key, s'.table[me.key], d);
          SameSums(s.(table := s'.table), s', s', d);
          LogSnoc(s.drift, Delta(c, DirOf(me.key), 0, SizeOf(current) - SizeOf(me.seen)), d);
        } else {
          SameSums(s, s', s', d);
        }
      case DeleteReturning(c) =>
        if s.clients[c].key in s.table {
          TableRemove(s, s.clients[c].key, d);
          SameSums(s.(table := s'.table), s', s', d);
        } else {
          SameSums(s, s', s', d);
        }
      case Send(c) =>
        var me := s.clients[c];
        LogSnoc(s.log, Delta(c, me.dir, me.count, me.bytes), d);
        SameSums(s, s', s', d);
      case _ =>
        SameSums(s, s', s', d);
    }
  }

  /** The sums depend only on the table and on the clients. */
  lemma SameSums(a: State, b: State, c: State, d: Dir)
    ensures a.table == b.table ==> LiveCount(a, d) == LiveCount(b, d) && LiveBytes(a, d) == LiveBytes(b, d)
    ensures b.clients == c.clients ==> OwedCount(b, d) == OwedCount(c, d) && OwedBytes(b, d) == OwedBytes(c, d)
  {
  }

  lemma {:induction false} RunConserves(s: State, steps: seq<Step>, stamping: Stamping, d: Dir)
    requires Conserved(s, d) && IsRun(s, steps, stamping)
    ensures Conserved(After(s, steps, stamping), d)
    decreases |steps|
  {
    if steps != [] {
      StepConserves(s, steps[0], stamping, d);
      RunConserves(Apply(s, steps[0], stamping), steps[1..], stamping, d);
    }
  }

  /** No caller is between its commit and its send. */
  ghost predicate Settled(s: State) {
    forall c :: c in s.clients ==> !s.clients[c].Owing?
  }

  /** In every run, under either stamping, and per directory: the count deltas sum to the
      number of live records, and the byte deltas miss the live total by exactly what
      conditional writes over a record they had not read mis-stated. */
  lemma DeltasSumToLive(steps: seq<Step>, stamping: Stamping, d: Dir)
    requires IsRun(EMPTY, steps, stamping) && Settled(After(EMPTY, steps, stamping))
    ensures var s := After(EMPTY, steps, stamping);
            && SentCount(s.log, d) == LiveCount(s, d)
            && SentBytes(s.log, d) == LiveBytes(s, d) + SentBytes(s.drift, d)
  {
    RunConserves(EMPTY, steps, stamping, d);
    var s := After(EMPTY, steps, stamping);
    SumZero(s.clients, (c: nat, v: Client) => if v.Owing? && v.dir == d then v.count else 0);
    SumZero(s.clients, (c: nat, v: Client) => if v.Owing? && v.dir == d then v.bytes else 0);
  }

  // --- When there is no drift ---

  /** A reader's stamp, if still current, still names the record it read. */
  ghost predicate Fresh(s: State, k: Key, seen: Stored) {
    && seen.version < s.clock
    && (k in s.table && s.table[k].version == seen.version ==> s.table[k] == seen)
  }

  ghost predicate StampsNeverReused(s: State) {
    && s.drift == []
    && (forall k :: k in s.table ==> s.table[k].version < s.clock)
    && (forall c :: c in s.clients && s.clients[c].Writing? && s.clients[c].seen.Some?
                    ==> Fresh(s, s.clients[c].key, s.clients[c].seen.value))
  }

  lemma {:induction false} NeverReusedHasNoDrift(s: State, steps: seq<Step>)
    requires StampsNeverReused(s) && IsRun(s, steps, NeverReused)
    ensures After(s, steps, NeverReused).drift == []
    decreases |steps|
  {
    if steps != [] {
      NeverReusedHasNoDrift(Apply(s, steps[0], NeverReused), steps[1..]);
    }
  }

  ghost predicate NoDeletes(steps: seq<Step>) {
    forall i :: 0 <= i < |steps| ==> !steps[i].DeleteReturning?
  }

  /** Without deletes even restarting stamps only grow. */
  ghost predicate StampsGrow(s: State) {
    && s.drift == []
    && (forall c :: c in s.clients && s.clients[c].Writing? && s.clients[c].seen.Some?
                    ==> var k, seen := s.clients[c].key, s.clients[c].seen.value;
                        k in s.table && seen.version <= s.table[k].version
                        && (seen.version == s.table[k].version ==> s.table[k] == seen))
  }

  lemma {:induction false} NoDeletesNoDrift(s: State, steps: seq<Step>)
    requires StampsGrow(s) && IsRun(s, steps, Restarting) && NoDeletes(steps)
    ensures After(s, steps, Restarting).drift == []
    decreases |steps|
  {
    if steps != [] {
      assert !steps[0].DeleteReturning?;
      assert forall i :: 0 <= i < |steps[1..]| ==> steps[1..][i] == steps[i + 1];
      NoDeletesNoDrift(Apply(s, steps[0], Restarting), steps[1..]);
    }
  }

  ghost predicate Over(me: Client) {
    me.Done? || me.Failed?
  }

  /** A step is taken only while every other call is over. */
  ghost predicate OneAtATime(s: State, steps: seq<Step>, stamping: Stamping)
    requires IsRun(s, steps, stamping)
    decreases |steps|
  {
    steps != [] ==>
      && (forall c :: c in s.clients && c != steps[0].client ==> Over(s.clients[c]))
      && OneAtATime(Apply(s, steps[0], stamping), steps[1..], stamping)
  }

  /** One call at most is under way, and what it has read is what the table holds. */
  ghost predicate Alone(s: State) {
    && s.drift == []
    && (forall c, d :: c in s.clients && d in s.clients && c != d ==> Over(s.clients[c]) || Over(s.clients[d]))
    && (forall c :: c in s.clients && s.clients[c].Writing? ==> s.clients[c].seen == Lookup(s.table, s.clients[c].key))
  }

  lemma {:induction false} SequentialHasNoDrift(s: State, steps: seq<Step>, stamping: Stamping)
    requires Alone(s) && IsRun(s, steps, stamping) && OneAtATime(s, steps, stamping)
    ensures After(s, steps, stamping).drift == []
    decreases |steps|
  {
    if steps != [] {
      SequentialHasNoDrift(Apply(s, steps[0], stamping), steps[1..], stamping);
    }
  }

  /** The exact sums, wherever drift is ruled out: a store that never reuses a stamp, a run in
      which nothing is deleted, or one in which calls do not interleave. */
  lemma DeltasExact(steps: seq<Step>, stamping: Stamping, d: Dir)
    requires IsRun(EMPTY, steps, stamping) && Settled(After(EMPTY, steps, stamping))
    requires stamping == NeverReused || NoDeletes(steps) || OneAtATime(EMPTY, steps, stamping)
    ensures var s := After(EMPTY, steps, stamping);
            SentCount(s.log, d) == LiveCount(s, d) && SentBytes(s.log, d) == LiveBytes(s, d)
  {
    DeltasSumToLive(steps, stamping, d);
    if stamping == NeverReused {
      NeverReusedHasNoDrift(EMPTY, steps);
    } else if NoDeletes(steps) {
      NoDeletesNoDrift(EMPTY, steps);
    } else {
      SequentialHasNoDrift(EMPTY, steps, stamping);
    }
  }

  lemma {:induction false} RunSnoc(s: State, steps: seq<Step>, a: Step, stamping: Stamping)
    requires IsRun(s, steps, stamping) && Enabled(After(s, steps, stamping), a)
    ensures IsRun(s, steps + [a], stamping)
    ensures After(s, steps + [a], stamping) == Apply(After(s, steps, stamping), a, stamping)
    decreases |steps|
  {
    if steps == [] {
      assert [] + [a] == [a] && [a][1..] == [];
    } else {
      RunSnoc(Apply(s, steps[0], stamping), steps[1..], a, stamping);
      assert (steps + [a])[1..] == steps[1..] + [a];
    }
  }

  lemma Extend(steps: seq<Step>, s: State, a: Step) returns (steps': seq<Step>, s': State)
    requires IsRun(EMPTY, steps, Restarting) && s == After(EMPTY, steps, Restarting) && Enabled(s, a)
    ensures IsRun(EMPTY, steps', Restarting) && s' == After(EMPTY, steps', Restarting)
    ensures s' == Apply(s, a, Restarting)
  {
    steps' := steps + [a];
    s' := Apply(s, a, Restarting);
    RunSnoc(EMPTY, steps, a, Restarting);
  }

  /** A run from the empty store that ends in `s`. */
  ghost predicate Reaches(steps: seq<Step>, s: State) {
    IsRun(EMPTY, steps, Restarting) && s == After(EMPTY, steps, Restarting)
  }

  /** Client 1 stores a 10-byte record; client 2 reads it and stalls. */
  lemma StaleReader() returns (steps: seq<Step>, s: State)
    ensures Reaches(steps, s)
    ensures var k := Key("r", Paths.Normalize([112]));
            && s.table == map[k := Stored(Record(10, "a"), 1)] && s.drift == []
            && s.clients == map[1 := Done, 2 := Writing(k, Record(1, "c"), 0, Some(s.table[k]))]
  {
    hide IsRun, After, DirOf, Paths.Normalize;
    EmptyRun();
    steps, s := Extend([], EMPTY, StartPut(1, "r", [112], Record(10, "a")));
    steps, s := Extend(steps, s, Read(1));
    steps, s := Extend(steps, s, CompareAndSet(1));
    steps, s := Extend(steps, s, Send(1));
    steps, s := Extend(steps, s, StartPut(2, "r", [112], Record(1, "c")));
    steps, s := Extend(steps, s, Read(2));
  }

  /** Client 3 deletes the record and client 4 stores a 70-byte one, again stamped 1. */
  lemma Recreated() returns (steps: seq<Step>, s: State)
    ensures Reaches(steps, s)
    ensures var k := Key("r", Paths.Normalize([112]));
            && s.table == map[k := Stored(Record(70, "b"), 1)] && s.drift == []
            && s.clients == map[1 := Done, 2 := Writing(k, Record(1, "c"), 0, Some(Stored(Record(10, "a"), 1))),
                                3 := Done, 4 := Done]
  {
    hide IsRun, After, DirOf, Paths.Normalize;
    steps, s := StaleReader();
    steps, s := Extend(steps, s, StartDelete(3, "r", [112]));
    steps, s := Extend(steps, s, DeleteReturning(3));
    steps, s := Extend(steps, s, Send(3));
    steps, s := Extend(steps, s, StartPut(4, "r", [112], Record(70, "b")));
    steps, s := Extend(steps, s, Read(4));
    steps, s := Extend(steps, s, CompareAndSet(4));
    steps, s := Extend(steps, s, Send(4));
  }

  /** With restarting stamps and deletes the byte deltas can be wrong: the stale write of
      client 2 still matches, and reports its size against the deleted record's. */
  lemma RestartedStampDrifts() returns (steps: seq<Step>, s: State, d: Dir)
    ensures Reaches(steps, s) && Settled(s) && !Exact(s, d)
  {
    hide IsRun, After, DirOf, Paths.Normalize, SentBytes, LiveBytes;
    steps, s := Recreated();
    d := DirOf(Key("r", Paths.Normalize([112])));
    steps, s := Extend(steps, s, CompareAndSet(2));
    steps, s := Extend(steps, s, Send(2));
    assert s.drift == [Delta(2, d, 0, 60)];
    assert Settled(s);
    DeltasSumToLive(steps, Restarting, d);
    LogSnoc([], Delta(2, d, 0, 60), d);
    assert [] + s.drift == s.drift;
    NothingSent(d);
  }

  /** How a store stamps versions, and what runs on it may do. */
  datatype Class = Class(stamping: Stamping, deletes: bool, interleaves: bool)

  ghost predicate Allowed(cls: Class, steps: seq<Step>)
    requires IsRun(EMPTY, steps, cls.stamping)
  {
    && (!cls.deletes ==> NoDeletes(steps))
    && (!cls.interleaves ==> OneAtATime(EMPTY, steps, cls.stamping))
  }

  ghost predicate Exact(s: State, d: Dir) {
    SentBytes(s.log, d) == LiveBytes(s, d)
  }

  /** Every settled run of the class reports exactly the live bytes of every directory. */
  ghost predicate AlwaysExact(cls: Class) {
    forall steps, d ::
      IsRun(EMPTY, steps, cls.stamping) && Allowed(cls, steps) && Settled(After(EMPTY, steps, cls.stamping))
      ==> Exact(After(EMPTY, steps, cls.stamping), d)
  }

  /** The byte deltas can be trusted exactly where stamps are never reused or deletions never
      meet interleaved calls. */
  lemma AlwaysExactIff(cls: Class)
    ensures AlwaysExact(cls) <==> cls.stamping == NeverReused || !(cls.deletes && cls.interleaves)
  {
    hide IsRun, After, Settled, SentBytes, LiveBytes, SentCount, LiveCount, OneAtATime, NoDeletes;
    if cls.stamping == Restarting && cls.deletes && cls.interleaves {
      var steps, s, d := RestartedStampDrifts();
      assert Allowed(cls, steps);
    } else {
      forall steps, d
        | IsRun(EMPTY, steps, cls.stamping) && Allowed(cls, steps) && Settled(After(EMPTY, steps, cls.stamping))
        ensures Exact(After(EMPTY, steps, cls.stamping), d)
      {
        DeltasExact(steps, cls.stamping, d);
      }
    }
  }

  lemma NothingSent(d: Dir)
    ensures SentBytes([], d) == 0
  {
  }

  lemma EmptyRun()
    ensures IsRun(EMPTY, [], Restarting) && After(EMPTY, [], Restarting) == EMPTY
  {
  }

  // --- Failed calls ---

  ghost predicate OnlyDoneSent(s: State) {
    forall i :: 0 <= i < |s.log| ==> s.log[i].client in s.clients && s.clients[s.log[i].client] == Done
  }

  lemma {:induction false} FailedCallsSendNothing(s: State, steps: seq<Step>, stamping: Stamping)
    requires OnlyDoneSent(s) && IsRun(s, steps, stamping)
    ensures OnlyDoneSent(After(s, steps, stamping))
    decreases |steps|
  {
    if steps != [] {
      assert OnlyDoneSent(Apply(s, steps[0], stamping));
      FailedCallsSendNothing(Apply(s, steps[0], stamping), steps[1..], stamping);
    }
  }
}
