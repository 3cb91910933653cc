/** The per-store blob counters: concurrent claims, fallback puts and counted deletions,
    with the credits and debits their callers send, against what a recount would find. */
module StoreCounter {
  import opened Lex
  import opened Sums
  import opened Blobs

  datatype Delta = Delta(store: Store, count: int, bytes: int)

  /** How a caller credits a new record. `creditEmpty` is false for a cross-store copy, which
      credits a new blob only when it added bytes. A `late` caller writes the artifact record
      between claim and credit, and credits nothing if that write fails: the upload path and
      the copy; the others credit as soon as they know the record is new. */
  datatype Caller = Caller(creditEmpty: bool, late: bool)

  datatype Client =
    | Claiming(key: Claim, how: Caller)
    | Lost(key: Claim, how: Caller)
    | Fallback(key: Claim, how: Caller)
    | Writing(key: Claim, how: Caller)
    | Sizing(key: Claim)
    | Deleting(key: Claim, size: Option<nat>)
    | Owing(delta: Delta)
    | Done

  /** `drift` is bookkeeping of the model: one entry for every action whose delta does not
      say what it did to the table. */
  datatype State = State(records: map<Claim, nat>, clients: map<nat, Client>, log: seq<Delta>, drift: seq<Delta>)

  const EMPTY := State(map[], map[], [], [])

  datatype Step =
    | StartClaim(c: nat, key: Claim, how: Caller)
    | StartDelete(c: nat, key: Claim)
    | PutIfAbsent(c: nat)
    | ReadWinner(c: nat)
    | FallbackPut(c: nat)
    | ArtifactWritten(c: nat)
    | ArtifactFails(c: nat)
    | ReadSize(c: nat)
    | DeleteRecord(c: nat)
    | Send(c: nat)

  ghost predicate Enabled(s: State, a: Step) {
    if a.StartClaim? || a.StartDelete? then a.c !in s.clients
    else
      a.c in s.clients
      && var me := s.clients[a.c];
      match a
      case PutIfAbsent(_) => me.Claiming?
      case ReadWinner(_) => me.Lost?
      case FallbackPut(_) => me.Fallback?
      case ArtifactWritten(_) => me.Writing?
      case ArtifactFails(_) => me.Writing?
      case ReadSize(_) => me.Sizing?
      case DeleteRecord(_) => me.Deleting?
      case Send(_) => me.Owing?
  }

  function SizeOf(key: Claim): nat {
    |key.hash.of|
  }

  predicate Credits(key: Claim, how: Caller) {
    how.creditEmpty || SizeOf(key) > 0
  }

  /** What the caller owes once it may credit a new record. */
  function Credit(key: Claim, how: Caller): Client {
    if Credits(key, how) then Owing(Delta(key.store, 1, SizeOf(key))) else Done
  }

  /** What the caller does on being told its record is new. */
  function Created(key: Claim, how: Caller): Client {
    if how.late then Writing(key, how) else Credit(key, how)
  }

  /** The error of a credit that is due and not made. */
  function SkippedCredit(key: Claim, how: Caller): seq<Delta> {
    if Credits(key, how) then [] else [Delta(key.store, -1, 0)]
  }

  function SkippedNow(key: Claim, how: Caller): seq<Delta> {
    if how.late then [] else SkippedCredit(key, how)
  }

  ghost function Apply(s: State, a: Step): State
    requires Enabled(s, a)
  {
    match a
    case StartClaim(c, key, how) => s.(clients := s.clients[c := Claiming(key, how)])
    case StartDelete(c, key) => s.(clients := s.clients[c := Sizing(key)])
    case PutIfAbsent(c) =>
      var me := s.clients[c];
      if me.key in s.records then s.(clients := s.clients[c := Lost(me.key, me.how)])
      else
        s.(records := s.records[me.key := SizeOf(me.key)],
           clients := s.clients[c := Created(me.key, me.how)],
           drift := s.drift + SkippedNow(me.key, me.how))
    case ReadWinner(c) =>
      var me := s.clients[c];
      s.(clients := s.clients[c := if me.key in s.records then Done else Fallback(me.key, me.how)])
    case FallbackPut(c) =>
      var me := s.clients[c];
      s.(records := s.records[me.key := SizeOf(me.key)],
         clients := s.clients[c := Created(me.key, me.how)],
         drift := s.drift + SkippedNow(me.key, me.how)
                  + if me.key in s.records then [Delta(me.key.store, 1, s.records[me.key])] else [])
    case ArtifactWritten(c) =>
      var me := s.clients[c];
      s.(clients := s.clients[c := Credit(me.key, me.how)], drift := s.drift + SkippedCredit(me.key, me.how))
    case ArtifactFails(c) =>
      var me := s.clients[c];
      s.(clients := s.clients[c := Done],
         drift := s.drift + [Delta(me.key.store, -1, 0 - SizeOf(me.key) as int)])
    case ReadSize(c) =>
      var me := s.clients[c];
      s.(clients := s.clients[c := Deleting(me.key, if me.key in s.records then Some(s.records[me.key]) else None)])
    case DeleteRecord(c) =>
      var me := s.clients[c];
      if me.key !in s.records then s.(clients := s.clients[c := Done])
      else if me.size.Some? then
        s.(records := s.records - {me.key},
           clients := s.clients[c := Owing(Delta(me.key.store, -1, 0 - me.size.value as int))])
      else
        s.(records := s.records - {me.key},
           clients := s.clients[c := Done],
           drift := s.drift + [Delta(me.key.store, 1, s.records[me.key])])
    case Send(c) => s.(clients := s.clients[c := Done], log := s.log + [s.clients[c].delta])
  }

  // --- Conservation ---

  ghost function LiveCount(records: map<Claim, nat>, store: Store): int {
    Sum(records, (k: Claim, size: nat) => if k.store == store then 1 else 0)
  }

  ghost function LiveBytes(records: map<Claim, nat>, store: Store): int {
    Sum(records, (k: Claim, size: nat) => if k.store == store then size else 0)
  }

  /** What a client still has to say about the table: a delta to send, or a new record whose
      credit waits for the artifact. */
  function CountOf(v: Client, store: Store): int {
    if v.Owing? && v.delta.store == store then v.delta.count
    else if v.Writing? && v.key.store == store then 1
    else 0
  }

  function BytesOf(v: Client, store: Store): int {
    if v.Owing? && v.delta.store == store then v.delta.bytes
    else if v.Writing? && v.key.store == store then SizeOf(v.key)
    else 0
  }

  ghost function OwedCount(clients: map<nat, Client>, store: Store): int {
    Sum(clients, (c: nat, v: Client) => CountOf(v, store))
  }

  ghost function OwedBytes(clients: map<nat, Client>, store: Store): int {
    Sum(clients, (c: nat, v: Client) => BytesOf(v, store))
  }

  ghost function SentCount(log: seq<Delta>, store: Store): int {
    Total(log, (x: Delta) => if x.store == store then x.count else 0)
  }

  ghost function SentBytes(log: seq<Delta>, store: Store): int {
    Total(log, (x: Delta) => if x.store == store then x.bytes else 0)
  }

  ghost predicate Conserved(s: State, store: Store) {
    && (forall k :: k in s.records ==> s.records[k] == SizeOf(k))
    && (forall c :: c in s.clients && s.clients[c].Deleting? && s.clients[c].size.Some?
                    ==> s.clients[c].size.value == SizeOf(s.clients[c].key))
    && SentCount(s.log, store) + OwedCount(s.clients, store) == LiveCount(s.records, store) + SentCount(s.drift, store)
    && SentBytes(s.log, store) + OwedBytes(s.clients, store) == LiveBytes(s.records, store) + SentBytes(s.drift, store)
  }

  lemma ClientPut(clients: map<nat, Client>, c: nat, v: Client, store: Store)
    ensures OwedCount(clients[c := v], store) == OwedCount(clients, store)
              - (if c in clients then CountOf(clients[c], store) else 0) + CountOf(v, store)
    ensures OwedBytes(clients[c := v], store) == OwedBytes(clients, store)
              - (if c in clients then BytesOf(clients[c], store) else 0) + BytesOf(v, store)
  {
    SumPut(clients, (c: nat, v: Client) => CountOf(v, store), c, v);
    SumPut(clients, (c: nat, v: Client) => BytesOf(v, store), c, v);
  }

  lemma RecordPut(records: map<Claim, nat>, k: Claim, size: nat, store: Store)
    ensures LiveCount(records[k := size], store)
         == LiveCount(records, store) + if k.store == store && k !in records then 1 else 0
    ensures LiveBytes(records[k := size], store)
         == LiveBytes(records, store) + if k.store == store then size - (if k in records then records[k] else 0) else 0
  {
    SumPut(records, (k: Claim, size: nat) => if k.store == store then 1 else 0, k, size);
    SumPut(records, (k: Claim, size: nat) => if k.store == store then size else 0, k, size);
  }

  lemma RecordRemove(records: map<Claim, nat>, k: Claim, store: Store)
    requires k in records
    ensures LiveCount(records - {k}, store) == LiveCount(records, store) - if k.store == store then 1 else 0
    ensures LiveBytes(records - {k}, store) == LiveBytes(records, store) - if k.store == store then records[k] else 0
  {
    SumAt(records, (k: Claim, size: nat) => if k.store == store then 1 else 0, k);
    SumAt(records, (k: Claim, size: nat) => if k.store == store then size else 0, k);
  }

  lemma LogSnoc(log: seq<Delta>, x: Delta, store: Store)
    ensures SentCount(log + [x], store) == SentCount(log, store) + if x.store == store then x.count else 0
    ensures SentBytes(log + [x], store) == SentBytes(log, store) + if x.store == store then x.bytes else 0
    ensures log + [] == log
  {
    TotalSnoc(log, x, (x: Delta) => if x.store == store then x.count else 0);
    TotalSnoc(log, x, (x: Delta) => if x.store == store then x.bytes else 0);
  }

  /** What a fallback put does to the recount and to the drift. */
  lemma FallbackAdds(s: State, c: nat, store: Store)
    requires Enabled(s, FallbackPut(c))
    ensures var me, s' := s.clients[c], Apply(s, FallbackPut(c));
            var here := me.key.store == store;
            var skipped := if here && !me.how.late && !Credits(me.key, me.how) then 1 else 0;
            && LiveCount(s'.records, store) - SentCount(s.drift, store) + SentCount(s'.drift, store)
               == LiveCount(s.records, store) + (if here then 1 else 0) - skipped
            && LiveBytes(s'.records, store) - SentBytes(s.drift, store) + SentBytes(s'.drift, store)
               == LiveBytes(s.records, store) + (if here then SizeOf(me.key) else 0)
  {
    hide LiveCount, LiveBytes, SentCount, SentBytes;
    var me := s.clients[c];
    var skipped := s.drift + SkippedNow(me.key, me.how);
    RecordPut(s.records, me.key, SizeOf(me.key), store);
    LogSnoc(s.drift, Delta(me.key.store, -1, 0), store);
    LogSnoc(skipped, Delta(me.key.store, 1, if me.key in s.records then s.records[me.key] else 0), store);
  }

  lemma StepConserves(s: State, a: Step, store: Store)
    requires Conserved(s, store) && Enabled(s, a)
    ensures Conserved(Apply(s, a), store)
  {
    hide LiveCount, LiveBytes, OwedCount, OwedBytes, SentCount, SentBytes;
    var s' := Apply(s, a);
    ClientPut(s.clients, a.c, s'.clients[a.c], store);
    match a {
      case PutIfAbsent(c) =>
        var me := s.clients[c];
        RecordPut(s.records, me.key, SizeOf(me.key), store);
        LogSnoc(s.drift, Delta(me.key.store, -1, 0), store);
      case ArtifactWritten(c) =>
        LogSnoc(s.drift, Delta(s.clients[c].key.store, -1, 0), store);
      case ArtifactFails(c) =>
        var me := s.clients[c];
        LogSnoc(s.drift, Delta(me.key.store, -1, 0 - SizeOf(me.key) as int), store);
      case FallbackPut(c) =>
        FallbackAdds(s, c, store);
      case DeleteRecord(c) =>
        var me := s.clients[c];
        if me.key in s.records {
          RecordRemove(s.records, me.key, store);
          LogSnoc(s.drift, Delta(me.key.store, 1, s.records[me.key]), store);
        }
      case Send(c) => LogSnoc(s.log, s.clients[c].delta, store);
      case _ =>
    }
  }

  // --- Runs ---

  ghost predicate IsRun(s: State, steps: seq<Step>)
    decreases |steps|
  {
    steps == [] || (Enabled(s, steps[0]) && IsRun(Apply(s, steps[0]), steps[1..]))
  }

  ghost function After(s: State, steps: seq<Step>): State
    requires IsRun(s, steps)
    decreases |steps|
  {
    if steps == [] then s else After(Apply(s, steps[0]), steps[1..])
  }

  lemma {:induction false} RunConserves(s: State, steps: seq<Step>, store: Store)
    requires Conserved(s, store) && IsRun(s, steps)
    ensures Conserved(After(s, steps), store)
    decreases |steps|
  {
    if steps != [] {
      StepConserves(s, steps[0], store);
      RunConserves(Apply(s, steps[0]), steps[1..], store);
    }
  }

  /** Every call has returned or has nothing left to say. */
  ghost predicate Settled(s: State) {
    forall c :: c in s.clients ==> !s.clients[c].Owing? && !s.clients[c].Writing?
  }

  /** The deltas sent for a store add up to what a recount of its records finds. */
  ghost predicate Exact(s: State, store: Store) {
    SentCount(s.log, store) == LiveCount(s.records, store) && SentBytes(s.log, store) == LiveBytes(s.records, store)
  }

  /** In every run of claims and counted deletions, the credits less the debits exceed the
      recount by exactly the entries of four mishaps: a fallback put over a record written
      meanwhile, a deletion whose size read came too early, an uncredited empty blob, and an
      artifact write that failed before a late credit. */
  lemma CreditsAreRecount(steps: seq<Step>, store: Store)
    requires IsRun(EMPTY, steps) && Settled(After(EMPTY, steps))
    ensures var s := After(EMPTY, steps);
            && SentCount(s.log, store) == LiveCount(s.records, store) + SentCount(s.drift, store)
            && SentBytes(s.log, store) == LiveBytes(s.records, store) + SentBytes(s.drift, store)
  {
    RunConserves(EMPTY, steps, store);
    var s := After(EMPTY, steps);
    SumZero(s.clients, (c: nat, v: Client) => CountOf(v, store));
    SumZero(s.clients, (c: nat, v: Client) => BytesOf(v, store));
  }

  /** A record's size is the length of the content it is for. */
  lemma {:induction false} SizesAreTrue(s: State, steps: seq<Step>)
    requires IsRun(s, steps) && forall k :: k in s.records ==> s.records[k] == |k.hash.of|
    ensures forall k :: k in After(s, steps).records ==> After(s, steps).records[k] == |k.hash.of|
    decreases |steps|
  {
    if steps != [] {
      SizesAreTrue(Apply(s, steps[0]), steps[1..]);
    }
  }

  // --- Classes of runs ---

  /** What the runs of a class may do: delete records, interleave calls, claim for callers that
      do not credit empty blobs, claim for callers that credit late, and fail artifact writes. */
  datatype Class = Class(deletes: bool, interleaves: bool, skipsEmpty: bool, late: bool, writesFail: bool)

  predicate StepAllowed(cls: Class, a: Step) {
    match a
    case StartClaim(_, key, how) => (cls.skipsEmpty || Credits(key, how)) && (cls.late || !how.late)
    case StartDelete(_, _) => cls.deletes
    case ArtifactFails(_) => cls.writesFail
    case _ => true
  }

  /** Nobody acts while another call is under way. */
  ghost predicate OneAtATime(s: State, steps: seq<Step>)
    requires IsRun(s, steps)
    decreases |steps|
  {
    steps != [] ==>
      && (forall c :: c in s.clients && c != steps[0].c ==> s.clients[c].Done?)
      && OneAtATime(Apply(s, steps[0]), steps[1..])
  }

  ghost predicate Allowed(cls: Class, steps: seq<Step>)
    requires IsRun(EMPTY, steps)
  {
    && (forall i :: 0 <= i < |steps| ==> StepAllowed(cls, steps[i]))
    && (!cls.interleaves ==> OneAtATime(EMPTY, steps))
  }

  /** The counters equal the recount after every settled run of the class. */
  ghost predicate AlwaysExact(cls: Class) {
    forall steps, store ::
      IsRun(EMPTY, steps) && Allowed(cls, steps) && Settled(After(EMPTY, steps)) ==> Exact(After(EMPTY, steps), store)
  }

  // --- Classes without drift ---

  ghost predicate ClaimsOk(cls: Class, s: State) {
    forall c :: c in s.clients ==>
      var me := s.clients[c];
      && (me.Claiming? || me.Lost? || me.Fallback? || me.Writing? ==>
            Credits(me.key, me.how) && (cls.late || !me.how.late))
      && (me.Writing? ==> me.how.late)
  }

  /** Without deletions a lost claim's winner stays. */
  ghost predicate Undisturbed(s: State) {
    && s.drift == []
    && forall c :: c in s.clients ==>
         var me := s.clients[c];
         && !me.Fallback? && !me.Sizing? && !me.Deleting?
         && (me.Lost? ==> me.key in s.records)
  }

  /** The one active call sees the table as it last left it. */
  ghost predicate Alone(s: State) {
    && s.drift == []
    && (forall c, d :: c in s.clients && d in s.clients && c != d ==> s.clients[c].Done? || s.clients[d].Done?)
    && forall c :: c in s.clients ==>
         var me := s.clients[c];
         && !me.Fallback?
         && (me.Lost? ==> me.key in s.records)
         && (me.Deleting? ==> (me.key in s.records <==> me.size.Some?))
  }

  lemma ClaimsStayOk(cls: Class, s: State, a: Step)
    requires ClaimsOk(cls, s) && Enabled(s, a) && StepAllowed(cls, a) && !cls.skipsEmpty
    ensures ClaimsOk(cls, Apply(s, a))
  {
    hide SizeOf;
  }

  lemma StepUndisturbed(cls: Class, s: State, a: Step)
    requires Undisturbed(s) && ClaimsOk(cls, s) && Enabled(s, a) && StepAllowed(cls, a)
    requires !cls.deletes && !(cls.late && cls.writesFail)
    ensures Undisturbed(Apply(s, a))
  {
    hide SizeOf;
  }

  lemma StepAlone(cls: Class, s: State, a: Step)
    requires Alone(s) && ClaimsOk(cls, s) && Enabled(s, a) && StepAllowed(cls, a)
    requires forall c :: c in s.clients && c != a.c ==> s.clients[c].Done?
    requires !(cls.late && cls.writesFail)
    ensures Alone(Apply(s, a))
  {
    hide SizeOf, Credits;
    StepNoDrift(cls, s, a);
    var s' := Apply(s, a);
    hide SkippedNow, SkippedCredit;
    assert forall c :: c in s'.clients && c != a.c ==> s'.clients[c].Done?;
  }

  lemma StepNoDrift(cls: Class, s: State, a: Step)
    requires Alone(s) && ClaimsOk(cls, s) && Enabled(s, a) && StepAllowed(cls, a) && !(cls.late && cls.writesFail)
    ensures Apply(s, a).drift == []
  {
    hide SizeOf, Credits;
  }

  lemma {:induction false} DeleteFreeHasNoDrift(cls: Class, s: State, steps: seq<Step>)
    requires Undisturbed(s) && ClaimsOk(cls, s) && IsRun(s, steps)
    requires forall i :: 0 <= i < |steps| ==> StepAllowed(cls, steps[i])
    requires !cls.deletes && !cls.skipsEmpty && !(cls.late && cls.writesFail)
    ensures After(s, steps).drift == []
    decreases |steps|
  {
    if steps != [] {
      assert forall i :: 0 <= i < |steps[1..]| ==> steps[1..][i] == steps[i + 1];
      ClaimsStayOk(cls, s, steps[0]);
      StepUndisturbed(cls, s, steps[0]);
      DeleteFreeHasNoDrift(cls, Apply(s, steps[0]), steps[1..]);
    }
  }

  lemma {:induction false} SequentialHasNoDrift(cls: Class, s: State, steps: seq<Step>)
    requires Alone(s) && ClaimsOk(cls, s) && IsRun(s, steps) && OneAtATime(s, steps)
    requires forall i :: 0 <= i < |steps| ==> StepAllowed(cls, steps[i])
    requires !cls.skipsEmpty && !(cls.late && cls.writesFail)
    ensures After(s, steps).drift == []
    decreases |steps|
  {
    if steps != [] {
      assert forall i :: 0 <= i < |steps[1..]| ==> steps[1..][i] == steps[i + 1];
      ClaimsStayOk(cls, s, steps[0]);
      StepAlone(cls, s, steps[0]);
      SequentialHasNoDrift(cls, Apply(s, steps[0]), steps[1..]);
    }
  }

  /** The counters equal the recount, however the calls interleave or in a sequential history
      with deletions, when every new record is credited. */
  lemma CounterEqualsRecount(cls: Class, steps: seq<Step>, store: Store)
    requires !cls.skipsEmpty && !(cls.late && cls.writesFail) && !(cls.deletes && cls.interleaves)
    requires IsRun(EMPTY, steps) && Allowed(cls, steps) && Settled(After(EMPTY, steps))
    ensures Exact(After(EMPTY, steps), store)
  {
    CreditsAreRecount(steps, store);
    if cls.deletes {
      SequentialHasNoDrift(cls, EMPTY, steps);
    } else {
      DeleteFreeHasNoDrift(cls, EMPTY, steps);
    }
    NothingSent(store);
  }

  lemma NothingSent(store: Store)
    ensures SentCount([], store) == 0 && SentBytes([], store) == 0
  {
  }

  // --- The mishaps, step by step ---

  ghost predicate Reaches(cls: Class, steps: seq<Step>, s: State) {
    && IsRun(EMPTY, steps) && s == After(EMPTY, steps)
    && (forall i :: 0 <= i < |steps| ==> StepAllowed(cls, steps[i]))
  }

  lemma {:induction false} RunSnoc(s: State, steps: seq<Step>, a: Step)
    requires IsRun(s, steps) && Enabled(After(s, steps), a)
    ensures IsRun(s, steps + [a]) && After(s, steps + [a]) == Apply(After(s, steps), a)
    decreases |steps|
  {
    if steps == [] {
      assert [] + [a] == [a] && [a][1..] == [];
    } else {
      RunSnoc(Apply(s, steps[0]), steps[1..], a);
      assert (steps + [a])[1..] == steps[1..] + [a];
    }
  }

  lemma Extend(cls: Class, steps: seq<Step>, s: State, a: Step) returns (steps': seq<Step>, s': State)
    requires Reaches(cls, steps, s) && Enabled(s, a) && StepAllowed(cls, a)
    ensures Reaches(cls, steps', s') && s' == Apply(s, a)
    ensures steps' == steps + [a]
  {
    steps' := steps + [a];
    s' := Apply(s, a);
    RunSnoc(EMPTY, steps, a);
  }

  lemma EmptyRun(cls: Class)
    ensures Reaches(cls, [], EMPTY)
  {
  }

  /** A run of one client is sequential. */
  lemma {:induction false} OneClient(s: State, steps: seq<Step>, c: nat)
    requires IsRun(s, steps) && forall i :: 0 <= i < |steps| ==> steps[i].c == c
    requires forall d :: d in s.clients ==> d == c
    ensures OneAtATime(s, steps)
    decreases |steps|
  {
    if steps != [] {
      assert forall i :: 0 <= i < |steps[1..]| ==> steps[1..][i] == steps[i + 1];
      assert forall d :: d in Apply(s, steps[0]).clients ==> d == c;
      OneClient(Apply(s, steps[0]), steps[1..], c);
    }
  }

  const PROMPT := Caller(true, false)
  const LATE := Caller(true, true)

  /** An empty blob copied across stores: a record, and no credit for it. */
  lemma UncreditedEmpty(cls: Class, store: Store) returns (steps: seq<Step>, s: State)
    requires cls.skipsEmpty
    ensures Reaches(cls, steps, s) && OneAtATime(EMPTY, steps) && Settled(s)
    ensures SentCount(s.log, store) == LiveCount(s.records, store) - 1
  {
    hide IsRun, After, SentCount, SentBytes, LiveCount, LiveBytes;
    var how := Caller(false, cls.late);
    var k := Claim(store, Blake3([]));
    EmptyRun(cls);
    steps, s := Extend(cls, [], EMPTY, StartClaim(1, k, how));
    steps, s := Extend(cls, steps, s, PutIfAbsent(1));
    if cls.late {
      steps, s := Extend(cls, steps, s, ArtifactWritten(1));
    }
    assert s.drift == [Delta(store, -1, 0)] && Settled(s);
    OneClient(EMPTY, steps, 1);
    DriftTells(steps, s, store);
  }

  /** An upload whose artifact write fails after its claim: the record stays, never credited. */
  lemma LateCreditLost(cls: Class, k: Claim) returns (steps: seq<Step>, s: State)
    requires cls.late && cls.writesFail
    ensures Reaches(cls, steps, s) && OneAtATime(EMPTY, steps) && Settled(s)
    ensures k in s.records && SentCount(s.log, k.store) == LiveCount(s.records, k.store) - 1
  {
    hide IsRun, After, SentCount, SentBytes, LiveCount, LiveBytes;
    EmptyRun(cls);
    steps, s := Extend(cls, [], EMPTY, StartClaim(1, k, LATE));
    steps, s := Extend(cls, steps, s, PutIfAbsent(1));
    steps, s := Extend(cls, steps, s, ArtifactFails(1));
    assert s.drift == [Delta(k.store, -1, 0 - SizeOf(k) as int)] && Settled(s);
    OneClient(EMPTY, steps, 1);
    DriftTells(steps, s, k.store);
  }

  lemma DriftTells(steps: seq<Step>, s: State, store: Store)
    requires IsRun(EMPTY, steps) && s == After(EMPTY, steps) && Settled(s)
    requires |s.drift| == 1 && s.drift[0].store == store
    ensures SentCount(s.log, store) == LiveCount(s.records, store) + s.drift[0].count
  {
    hide LiveCount, LiveBytes, SentCount, SentBytes, IsRun, After;
    CreditsAreRecount(steps, store);
    LogSnoc([], s.drift[0], store);
    assert [] + s.drift == s.drift == [s.drift[0]];
    NothingSent(store);
  }

  /** Client 2 has lost the claim to client 1, which is done. */
  lemma LostClaim(cls: Class, k: Claim) returns (steps: seq<Step>, s: State)
    ensures Reaches(cls, steps, s)
    ensures s.records == map[k := SizeOf(k)] && s.drift == []
            && s.clients == map[1 := Done, 2 := Lost(k, PROMPT)]
  {
    hide IsRun, After, SizeOf;
    EmptyRun(cls);
    steps, s := Extend(cls, [], EMPTY, StartClaim(1, k, PROMPT));
    steps, s := Extend(cls, steps, s, PutIfAbsent(1));
    steps, s := Extend(cls, steps, s, Send(1));
    steps, s := Extend(cls, steps, s, StartClaim(2, k, PROMPT));
    steps, s := Extend(cls, steps, s, PutIfAbsent(2));
  }

  /** Client 2 has lost the claim to client 1, then finds the record deleted by client 3. */
  lemma LostThenDeleted(cls: Class, k: Claim) returns (steps: seq<Step>, s: State)
    requires cls.deletes
    ensures Reaches(cls, steps, s)
    ensures s.records == map[] && s.drift == []
            && s.clients == map[1 := Done, 2 := Fallback(k, PROMPT), 3 := Done]
  {
    hide IsRun, After, SizeOf;
    steps, s := LostClaim(cls, k);
    steps, s := Extend(cls, steps, s, StartDelete(3, k));
    steps, s := Extend(cls, steps, s, ReadSize(3));
    steps, s := Extend(cls, steps, s, DeleteRecord(3));
    steps, s := Extend(cls, steps, s, Send(3));
    steps, s := Extend(cls, steps, s, ReadWinner(2));
  }

  /** Client 4 claims the hash anew before client 2's fallback. */
  lemma ClaimedAnew(cls: Class, k: Claim) returns (steps: seq<Step>, s: State)
    requires cls.deletes
    ensures Reaches(cls, steps, s)
    ensures s.records == map[k := SizeOf(k)] && s.drift == []
            && s.clients == map[1 := Done, 2 := Fallback(k, PROMPT), 3 := Done, 4 := Done]
  {
    hide IsRun, After, SizeOf;
    steps, s := LostThenDeleted(cls, k);
    steps, s := Extend(cls, steps, s, StartClaim(4, k, PROMPT));
    steps, s := Extend(cls, steps, s, PutIfAbsent(4));
    steps, s := Extend(cls, steps, s, Send(4));
  }

  /** A deletion between a lost claim and its re-read, and another claim before the
      fallback put: one record, credited twice. */
  lemma DoubleCredit(cls: Class, k: Claim) returns (steps: seq<Step>, s: State)
    requires cls.deletes
    ensures Reaches(cls, steps, s) && Settled(s)
    ensures s.records.Keys == {k} && SentCount(s.log, k.store) == LiveCount(s.records, k.store) + 1
  {
    hide IsRun, After, SizeOf, SentCount, SentBytes, LiveCount, LiveBytes;
    steps, s := ClaimedAnew(cls, k);
    steps, s := Extend(cls, steps, s, FallbackPut(2));
    steps, s := Extend(cls, steps, s, Send(2));
    assert s.drift == [Delta(k.store, 1, SizeOf(k))];
    assert Settled(s);
    DriftTells(steps, s, k.store);
  }

  /** A deletion that read the size before the record was there, and removes it after: the record
      is gone, its credit stays. */
  lemma UndebitedDelete(cls: Class, k: Claim) returns (steps: seq<Step>, s: State)
    requires cls.deletes
    ensures Reaches(cls, steps, s) && Settled(s)
    ensures s.records == map[] && SentCount(s.log, k.store) == LiveCount(s.records, k.store) + 1
  {
    hide IsRun, After, SizeOf, SentCount, SentBytes, LiveCount, LiveBytes;
    EmptyRun(cls);
    steps, s := Extend(cls, [], EMPTY, StartDelete(1, k));
    steps, s := Extend(cls, steps, s, ReadSize(1));
    steps, s := Extend(cls, steps, s, StartClaim(2, k, PROMPT));
    steps, s := Extend(cls, steps, s, PutIfAbsent(2));
    steps, s := Extend(cls, steps, s, Send(2));
    steps, s := Extend(cls, steps, s, DeleteRecord(1));
    assert s.drift == [Delta(k.store, 1, SizeOf(k))];
    assert Settled(s);
    DriftTells(steps, s, k.store);
  }

  /** The counters can be trusted in exactly the classes that credit every new record and never
      mix deletions with interleaving. */
  lemma AlwaysExactIff(cls: Class)
    ensures AlwaysExact(cls)
       <==> !cls.skipsEmpty && !(cls.late && cls.writesFail) && !(cls.deletes && cls.interleaves)
  {
    hide IsRun, After, Settled, SentCount, SentBytes, LiveCount, LiveBytes, OneAtATime;
    var k := Claim("s", Blake3([]));
    if cls.skipsEmpty {
      var steps, s := UncreditedEmpty(cls, k.store);
      assert Allowed(cls, steps) && !Exact(s, k.store);
    } else if cls.late && cls.writesFail {
      var steps, s := LateCreditLost(cls, k);
      assert Allowed(cls, steps) && !Exact(s, k.store);
    } else if cls.deletes && cls.interleaves {
      var steps, s := DoubleCredit(cls, k);
      assert Allowed(cls, steps) && !Exact(s, k.store);
    } else {
      forall steps, store | IsRun(EMPTY, steps) && Allowed(cls, steps) && Settled(After(EMPTY, steps))
        ensures Exact(After(EMPTY, steps), store)
      {
        CounterEqualsRecount(cls, steps, store);
      }
    }
  }
}
