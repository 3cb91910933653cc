/** What the artifact records say after a run of the ingest protocol: for every key, what the last
    client that wrote it came to write. */
module IngestHistory {
  import opened Chunks
  import opened Blobs
  import opened BlobIngest
  import opened IngestRuns

  /** A run with its states: `states[n]` is the one before step `n`. */
  ghost predicate Trace(steps: seq<Step>, states: seq<State>) {
    && |states| == |steps| + 1 && states[0] == EMPTY
    && forall n :: 0 <= n < |steps| ==> Follows(states[n], steps[n], states[n + 1])
  }

  ghost predicate Follows(s: State, a: Step, s': State) {
    Enabled(s, a) && s' == Apply(s, a)
  }

  lemma {:induction false} StatesOf(s: State, steps: seq<Step>) returns (states: seq<State>)
    requires IsRun(s, steps)
    ensures |states| == |steps| + 1 && states[0] == s && states[|steps|] == After(s, steps)
    ensures forall n :: 0 <= n < |steps| ==> Follows(states[n], steps[n], states[n + 1])
    decreases |steps|
  {
    if steps == [] {
      states := [s];
    } else {
      hide Enabled, Apply;
      var rest := StatesOf(Apply(s, steps[0]), steps[1..]);
      states := [s] + rest;
      forall n | 0 <= n < |steps|
        ensures Follows(states[n], steps[n], states[n + 1])
      {
        if n > 0 {
          assert Follows(rest[n - 1], steps[1..][n - 1], rest[n]);
        }
      }
    }
  }

  // --- Who came to write what ---

  /** Step `p`, before step `n`, is where client `c` started to ingest this job. */
  ghost predicate StartsIngest(steps: seq<Step>, p: nat, n: nat, c: nat, job: Job) {
    p < n <= |steps| && steps[p] == Start(c, job)
  }

  /** Step `p`, before step `n`, is where it started to mount the record then at `from`. */
  ghost predicate StartsMount(steps: seq<Step>, p: nat, n: nat, c: nat, key: ArtKey, from: ArtKey, dest: Store) {
    p < n <= |steps| && steps[p] == StartMount(c, key, from, dest)
  }

  ghost predicate Writes(steps: seq<Step>, i: nat, n: nat, c: nat) {
    i < n <= |steps| && steps[i] == WriteArtifact(c)
  }

  /** Client `c` came to write `key`. */
  ghost predicate Wants(steps: seq<Step>, c: nat, key: ArtKey) {
    || (exists p, job :: StartsIngest(steps, p, |steps|, c, job) && job.key == key)
    || (exists p, from, dest :: StartsMount(steps, p, |steps|, c, key, from, dest))
  }

  /** No step from `i` on writes this key. */
  ghost predicate Untouched(steps: seq<Step>, i: nat, key: ArtKey) {
    forall j :: i <= j < |steps| && steps[j].WriteArtifact? ==> !Wants(steps, steps[j].c, key)
  }

  predicate OnJob(me: Client) {
    me.Uploading? || me.Claiming? || me.Losing? || me.Settling?
  }

  predicate OnMount(me: Client) {
    me.Mounting? || me.MountWriting?
  }

  predicate HasWritten(me: Client) {
    me.Done? || (me.Settling? && !me.writeArtifact)
  }

  ghost predicate MountTold(steps: seq<Step>, states: seq<State>, p: nat, n: nat, c: nat, me: Client, from: ArtKey, dest: Store)
    requires |states| == |steps| + 1 && OnMount(me)
  {
    && StartsMount(steps, p, n, c, me.key, from, dest)
    && from in states[p].artifacts && me.mounted == states[p].artifacts[from].(store := dest)
  }

  /** What the client is on is what it started; and one that is done has written. */
  ghost predicate ClientTold(steps: seq<Step>, states: seq<State>, n: nat, c: nat, me: Client)
    requires |states| == |steps| + 1
  {
    && (OnJob(me) ==> exists p :: StartsIngest(steps, p, n, c, me.job))
    && (OnMount(me) ==> exists p, from, dest :: MountTold(steps, states, p, n, c, me, from, dest))
    && (HasWritten(me) ==> exists i :: Writes(steps, i, n, c))
  }

  ghost predicate Told(steps: seq<Step>, states: seq<State>, n: nat)
    requires |states| == |steps| + 1 && n <= |steps|
  {
    && (forall c :: c in states[n].clients ==> ClientTold(steps, states, n, c, states[n].clients[c]))
    && (forall p, c, job :: StartsIngest(steps, p, n, c, job) ==> c in states[n].clients)
    && (forall p, c, key, from, dest :: StartsMount(steps, p, n, c, key, from, dest) ==> c in states[n].clients)
  }

  lemma {:induction false} AlwaysTold(steps: seq<Step>, states: seq<State>, n: nat)
    requires Trace(steps, states) && n <= |steps|
    ensures Told(steps, states, n)
  {
    if n > 0 {
      AlwaysTold(steps, states, n - 1);
      assert Follows(states[n - 1], steps[n - 1], states[n]);
      forall c | c in states[n].clients
        ensures ClientTold(steps, states, n, c, states[n].clients[c])
      {
        ToldNext(steps, states, n - 1, c);
      }
      StartersStay(steps, states, n - 1, n);
    }
  }

  lemma StartersStay(steps: seq<Step>, states: seq<State>, n: nat, m: nat)
    requires |states| == |steps| + 1 && n < |steps| && m == n + 1
    requires Told(steps, states, n) && Follows(states[n], steps[n], states[m])
    ensures forall p, c, job :: StartsIngest(steps, p, m, c, job) ==> c in states[m].clients
    ensures forall p, c, key, from, dest :: StartsMount(steps, p, m, c, key, from, dest) ==> c in states[m].clients
  {
    hide ClientTold;
    assert forall c :: c in states[n].clients ==> c in states[m].clients;
    forall p: nat, c, job | StartsIngest(steps, p, m, c, job)
      ensures c in states[m].clients
    {
      assert p < n ==> StartsIngest(steps, p, n, c, job);
    }
    forall p: nat, c, key, from, dest | StartsMount(steps, p, m, c, key, from, dest)
      ensures c in states[m].clients
    {
      assert p < n ==> StartsMount(steps, p, n, c, key, from, dest);
    }
  }

  lemma ToldLater(steps: seq<Step>, states: seq<State>, n: nat, c: nat, me: Client)
    requires |states| == |steps| + 1 && n < |steps| && ClientTold(steps, states, n, c, me)
    ensures ClientTold(steps, states, n + 1, c, me)
  {
    if OnJob(me) {
      var p :| StartsIngest(steps, p, n, c, me.job);
      assert StartsIngest(steps, p, n + 1, c, me.job);
    }
    if OnMount(me) {
      var p, from, dest :| MountTold(steps, states, p, n, c, me, from, dest);
      assert MountTold(steps, states, p, n + 1, c, me, from, dest);
    }
    if HasWritten(me) {
      var i :| Writes(steps, i, n, c);
      assert Writes(steps, i, n + 1, c);
    }
  }

  lemma ToldNext(steps: seq<Step>, states: seq<State>, n: nat, c: nat)
    requires |states| == |steps| + 1 && n < |steps| && Told(steps, states, n)
    requires Follows(states[n], steps[n], states[n + 1]) && c in states[n + 1].clients
    ensures ClientTold(steps, states, n + 1, c, states[n + 1].clients[c])
  {
    var a, s, s' := steps[n], states[n], states[n + 1];
    var me := s'.clients[c];
    if c in s.clients {
      ToldLater(steps, states, n, c, s.clients[c]);
    }
    if c != a.c {
      assert s.clients[c] == me;
    } else if a.Start? {
      assert StartsIngest(steps, n, n + 1, c, a.job);
    } else if a.StartMount? {
      assert MountTold(steps, states, n, n + 1, c, me, a.from, a.dest);
    } else {
      var was := s.clients[c];
      if a.WriteArtifact? {
        assert Writes(steps, n, n + 1, c);
      }
      if OnMount(me) {
        var p, from, dest :| MountTold(steps, states, p, n + 1, c, was, from, dest);
        assert MountTold(steps, states, p, n + 1, c, me, from, dest);
      }
    }
  }

  /** A client starts once. */
  lemma StartsOnce(steps: seq<Step>, states: seq<State>, p: nat, q: nat)
    requires Trace(steps, states) && p < |steps| && q < |steps| && steps[p].c == steps[q].c
    requires (steps[p].Start? || steps[p].StartMount?) && (steps[q].Start? || steps[q].StartMount?)
    ensures p == q
  {
    if p != q {
      var i, j := if p < q then p else q, if p < q then q else p;
      AlwaysTold(steps, states, j);
      assert Follows(states[j], steps[j], states[j + 1]);
      var a := steps[i];
      if a.Start? {
        assert StartsIngest(steps, i, j, a.c, a.job);
      } else {
        assert StartsMount(steps, i, j, a.c, a.key, a.from, a.dest);
      }
    }
  }

  /** A write goes to a key its client came to write. */
  lemma WriteIsWanted(steps: seq<Step>, states: seq<State>, n: nat, key: ArtKey)
    requires Trace(steps, states) && n < |steps|
    requires !(steps[n].WriteArtifact? && Wants(steps, steps[n].c, key))
    ensures key in states[n + 1].artifacts <==> key in states[n].artifacts
    ensures key in states[n].artifacts ==> states[n + 1].artifacts[key] == states[n].artifacts[key]
  {
    var a, s := steps[n], states[n];
    assert Follows(s, a, states[n + 1]);
    if a.WriteArtifact? {
      AlwaysTold(steps, states, n);
      var me := s.clients[a.c];
      assert ClientTold(steps, states, n, a.c, me);
      if OnMount(me) {
        var p, from, dest :| MountTold(steps, states, p, n, a.c, me, from, dest);
        assert StartsMount(steps, p, |steps|, a.c, me.key, from, dest);
      } else {
        var p :| StartsIngest(steps, p, n, a.c, me.job);
        assert StartsIngest(steps, p, |steps|, a.c, me.job);
      }
    }
  }

  lemma {:induction false} RecordStays(steps: seq<Step>, states: seq<State>, i: nat, key: ArtKey)
    requires Trace(steps, states) && i <= |steps| && Untouched(steps, i, key)
    ensures var s := states[|steps|];
            && (key in s.artifacts <==> key in states[i].artifacts)
            && (key in s.artifacts ==> s.artifacts[key] == states[i].artifacts[key])
    decreases |steps| - i
  {
    if i < |steps| {
      WriteIsWanted(steps, states, i, key);
      RecordStays(steps, states, i + 1, key);
    }
  }

  // --- The results ---

  /** After an ingest wrote its key, and until someone else writes it, the record is of its own
      upload: its store, its content. */
  lemma LastIngestStands(steps: seq<Step>, states: seq<State>, p: nat, i: nat, c: nat, job: Job)
    requires Trace(steps, states) && p < |steps| && i < |steps|
    requires steps[p] == Start(c, job) && steps[i] == WriteArtifact(c) && Untouched(steps, i + 1, job.key)
    ensures var s := states[|steps|];
            && job.key in s.artifacts
            && s.artifacts[job.key].store == job.store && s.artifacts[job.key].hash == Blake3(job.data)
  {
    AlwaysTold(steps, states, i);
    assert Follows(states[i], steps[i], states[i + 1]);
    var me := states[i].clients[c];
    assert ClientTold(steps, states, i, c, me);
    if OnMount(me) {
      var q, from, dest :| MountTold(steps, states, q, i, c, me, from, dest);
      StartsOnce(steps, states, p, q);
      assert false;
    } else {
      var q :| StartsIngest(steps, q, i, c, me.job);
      StartsOnce(steps, states, p, q);
      RecordStays(steps, states, i + 1, job.key);
    }
  }

  /** After a mount wrote its key, and until someone else writes it, the record is the one mounted,
      as it was when the mount began, under the destination's store. */
  lemma LastMountStands(steps: seq<Step>, states: seq<State>, p: nat, i: nat, c: nat, key: ArtKey, from: ArtKey, dest: Store)
    requires Trace(steps, states) && p < |steps| && i < |steps|
    requires steps[p] == StartMount(c, key, from, dest) && steps[i] == WriteArtifact(c) && Untouched(steps, i + 1, key)
    ensures from in states[p].artifacts && key in states[|steps|].artifacts
    ensures states[|steps|].artifacts[key] == states[p].artifacts[from].(store := dest)
  {
    AlwaysTold(steps, states, i);
    assert Follows(states[p], steps[p], states[p + 1]);
    assert Follows(states[i], steps[i], states[i + 1]);
    var me := states[i].clients[c];
    assert ClientTold(steps, states, i, c, me);
    if OnMount(me) {
      var q, from', dest' :| MountTold(steps, states, q, i, c, me, from', dest');
      StartsOnce(steps, states, p, q);
      RecordStays(steps, states, i + 1, key);
    } else {
      var q :| StartsIngest(steps, q, i, c, me.job);
      StartsOnce(steps, states, p, q);
      assert false;
    }
  }

  /** A key nobody wrote has no record. */
  lemma EveryRecordWasWritten(steps: seq<Step>, states: seq<State>, key: ArtKey)
    requires Trace(steps, states) && key in states[|steps|].artifacts
    ensures exists i: nat :: i < |steps| && steps[i].WriteArtifact? && Wants(steps, steps[i].c, key)
  {
    if Untouched(steps, 0, key) {
      RecordStays(steps, states, 0, key);
      assert false;
    }
  }

  /** A client that is done, having neither crashed nor stopped, made its write. */
  lemma DoneHasWritten(steps: seq<Step>, states: seq<State>, c: nat)
    requires Trace(steps, states) && c in states[|steps|].clients && states[|steps|].clients[c].Done?
    ensures WriteArtifact(c) in steps
  {
    AlwaysTold(steps, states, |steps|);
    assert ClientTold(steps, states, |steps|, c, states[|steps|].clients[c]);
    var i :| Writes(steps, i, |steps|, c);
  }

  /** Put together with safety: while mounts stay within one store, what an ingest wrote last is
      what is read back. */
  lemma UploadReadsBack(may: IngestRuns.Mounts, steps: seq<Step>, p: nat, i: nat, c: nat, job: Job)
    requires IsRun(EMPTY, steps) && MountsWithin(may, EMPTY, steps) && OneStoreOnly(may)
    requires p < |steps| && i < |steps| && steps[p] == Start(c, job) && steps[i] == WriteArtifact(c)
    requires Untouched(steps, i + 1, job.key)
    ensures var s := After(EMPTY, steps);
            && job.key in s.artifacts
            && var f := File(job.store, s.artifacts[job.key].blobId);
               f in s.files && s.files[f] == job.data
  {
    hide IsRun, After, MountsWithin, Untouched;
    var states := StatesOf(EMPTY, steps);
    LastIngestStands(steps, states, p, i, c, job);
    IngestSafe(may, steps);
  }
}
