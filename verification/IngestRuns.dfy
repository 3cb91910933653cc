/** What holds over whole runs of the ingest protocol: of all runs, and of those whose mounts
    stay within one store. */
module IngestRuns {
  import opened Chunks
  import opened Blobs
  import opened BlobIngest

  // --- What mounting within one store adds: nothing named is missing ---

  ghost predicate Stored(s: State) {
    && (forall k :: k in s.claims ==> File(k.store, s.claims[k]) in s.files)
    && (forall k :: k in s.artifacts ==> Matches(s, s.artifacts[k].store, s.artifacts[k].hash, s.artifacts[k].blobId))
    && (forall c :: c in s.clients && (s.clients[c].Mounting? || s.clients[c].MountWriting?) ==>
          var m := s.clients[c].mounted; Matches(s, m.store, m.hash, m.blobId))
  }

  /** Each blob record and each artifact record points at a stored file whose content has the
      recorded hash. */
  ghost predicate Safe(s: State) {
    && (forall k :: k in s.claims ==>
          var f := File(k.store, s.claims[k]); f in s.files && Blake3(s.files[f]) == k.hash)
    && (forall k :: k in s.artifacts ==>
          var f := File(s.artifacts[k].store, s.artifacts[k].blobId);
          f in s.files && Blake3(s.files[f]) == s.artifacts[k].hash)
  }

  lemma StoredIsSafe(s: State)
    requires Inv(s) && Stored(s)
    ensures Safe(s)
  {
    forall k | k in s.claims
      ensures Honest(s, k)
    {
    }
  }

  /** The mount's destination is the store the mounted record names. */
  predicate Stays(s: State, a: Step) {
    a.StartMount? && a.from in s.artifacts ==> a.dest == s.artifacts[a.from].store
  }

  lemma StepKeepsStored(s: State, a: Step)
    requires Inv(s) && Stored(s) && Enabled(s, a) && Stays(s, a)
    ensures Stored(Apply(s, a))
  {
    var s' := Apply(s, a);
    if a.Crash? || a.DropDuplicate? {
      NoClaimedFileGoes(s, a);
    } else if !a.Start? && !a.StartMount? {
      assert ClientOk(s, s.clients[a.c]);
    }
    hide RecordsOk, ClientsOk, FilesOk;
    StoredClaims(s, a);
    StoredArtifacts(s, a);
    StoredMounts(s, a);
  }

  lemma StoredClaims(s: State, a: Step)
    requires Stored(s) && Enabled(s, a)
    requires a.PutIfAbsent? || a.ReadWinner? || a.MountClaim? ==> ClientOk(s, s.clients[a.c])
    requires a.Crash? || a.DropDuplicate? ==>
               forall k :: k in s.claims ==> File(k.store, s.claims[k]) in Apply(s, a).files
    ensures var s' := Apply(s, a);
            forall k :: k in s'.claims ==> File(k.store, s'.claims[k]) in s'.files
    ensures ClaimsKept(s, Apply(s, a))
  {
    hide Certified;
  }

  lemma StoredArtifacts(s: State, a: Step)
    requires Stored(s) && Enabled(s, a) && ClaimsKept(s, Apply(s, a))
    requires a.WriteArtifact? ==> ClientOk(s, s.clients[a.c])
    ensures var s' := Apply(s, a);
            forall k :: k in s'.artifacts ==>
              Matches(s', s'.artifacts[k].store, s'.artifacts[k].hash, s'.artifacts[k].blobId)
  {
    hide Certified;
  }

  lemma StoredMounts(s: State, a: Step)
    requires Stored(s) && Enabled(s, a) && ClaimsKept(s, Apply(s, a)) && Stays(s, a)
    ensures var s' := Apply(s, a);
            forall c :: c in s'.clients && (s'.clients[c].Mounting? || s'.clients[c].MountWriting?) ==>
              var m := s'.clients[c].mounted; Matches(s', m.store, m.hash, m.blobId)
  {
    var s' := Apply(s, a);
    forall c | c in s'.clients && (s'.clients[c].Mounting? || s'.clients[c].MountWriting?)
      ensures Matches(s, s'.clients[c].mounted.store, s'.clients[c].mounted.hash, s'.clients[c].mounted.blobId)
    {
      if c != a.c {
        assert c in s.clients && s.clients[c] == s'.clients[c];
      }
    }
  }

  /** Only an owned file is ever deleted, and no record names it. */
  lemma NoClaimedFileGoes(s: State, a: Step)
    requires Inv(s) && Enabled(s, a) && (a.Crash? || a.DropDuplicate?)
    ensures forall k :: k in s.claims && File(k.store, s.claims[k]) in s.files
                        ==> File(k.store, s.claims[k]) in Apply(s, a).files
  {
    forall k | k in s.claims && File(k.store, s.claims[k]) in s.files
      ensures File(k.store, s.claims[k]) in Apply(s, a).files
    {
      assert Named(s, s.claims[k]);
      if a.DropDuplicate? {
        assert File(s.clients[a.c].job.store, s.clients[a.c].id) in OwnFile(s.clients[a.c]);
      }
    }
  }

  // --- Runs ---

  ghost predicate IsRun(s: State, steps: seq<Step>)
    decreases |steps|
  {
    steps == [] || (Enabled(s, steps[0]) && IsRun(Apply(s, steps[0]), steps[1..]))
  }

  ghost function After(s: State, steps: seq<Step>): State
    requires IsRun(s, steps)
    decreases |steps|
  {
    if steps == [] then s else After(Apply(s, steps[0]), steps[1..])
  }

  /** Which stores a deployment lets a record be mounted from and into. */
  type Mounts = (Store, Store) -> bool

  ghost predicate MountsWithin(may: Mounts, s: State, steps: seq<Step>)
    requires IsRun(s, steps)
    decreases |steps|
  {
    steps != [] ==>
      && (steps[0].StartMount? ==> may(s.artifacts[steps[0].from].store, steps[0].dest))
      && MountsWithin(may, Apply(s, steps[0]), steps[1..])
  }

  ghost predicate OneStoreOnly(may: Mounts) {
    forall a, b :: may(a, b) ==> a == b
  }

  lemma {:induction false} RunKeepsInv(s: State, steps: seq<Step>)
    requires Inv(s) && IsRun(s, steps)
    ensures Inv(After(s, steps)) && ClaimsKept(s, After(s, steps))
    decreases |steps|
  {
    if steps != [] {
      StepKeepsInv(s, steps[0]);
      RunKeepsInv(Apply(s, steps[0]), steps[1..]);
    }
  }

  lemma {:induction false} RunKeepsStored(may: Mounts, s: State, steps: seq<Step>)
    requires Inv(s) && Stored(s) && IsRun(s, steps) && MountsWithin(may, s, steps) && OneStoreOnly(may)
    ensures Stored(After(s, steps))
    decreases |steps|
  {
    if steps != [] {
      StepKeepsInv(s, steps[0]);
      StepKeepsStored(s, steps[0]);
      RunKeepsStored(may, Apply(s, steps[0]), steps[1..]);
    }
  }

  /** While every mount stays within one store, every reachable state is safe. */
  lemma IngestSafe(may: Mounts, steps: seq<Step>)
    requires IsRun(EMPTY, steps) && MountsWithin(may, EMPTY, steps) && OneStoreOnly(may)
    ensures Safe(After(EMPTY, steps))
  {
    RunKeepsInv(EMPTY, steps);
    RunKeepsStored(may, EMPTY, steps);
    StoredIsSafe(After(EMPTY, steps));
  }

  /** In every run, mounts across stores included, no record leads to wrong content: the file
      it names, if there is one, has the recorded hash. */
  lemma NeverWrongContent(steps: seq<Step>)
    requires IsRun(EMPTY, steps)
    ensures var s := After(EMPTY, steps);
            && (forall k :: k in s.claims && File(k.store, s.claims[k]) in s.files ==>
                  Blake3(s.files[File(k.store, s.claims[k])]) == k.hash)
            && (forall k :: k in s.artifacts && File(s.artifacts[k].store, s.artifacts[k].blobId) in s.files ==>
                  Blake3(s.files[File(s.artifacts[k].store, s.artifacts[k].blobId)]) == s.artifacts[k].hash)
  {
    RunKeepsInv(EMPTY, steps);
    var s := After(EMPTY, steps);
    forall k | k in s.claims
      ensures Honest(s, k)
    {
    }
    forall k | k in s.artifacts && File(s.artifacts[k].store, s.artifacts[k].blobId) in s.files
      ensures Blake3(s.files[File(s.artifacts[k].store, s.artifacts[k].blobId)]) == s.artifacts[k].hash
    {
      assert Certified(s, s.artifacts[k].hash, s.artifacts[k].blobId);
    }
  }

  /** A deletion issued after losing a claim never hits a file that any record names, nor
      one that any client will still name; mounts across stores included. */
  lemma DroppedIsUnreferenced(steps: seq<Step>, c: nat)
    requires IsRun(EMPTY, steps) && Enabled(After(EMPTY, steps), DropDuplicate(c, true))
    ensures var s := After(EMPTY, steps);
            var f := File(s.clients[c].job.store, s.clients[c].id);
            && (forall k :: k in s.claims ==> File(k.store, s.claims[k]) != f)
            && (forall k :: k in s.artifacts ==> File(s.artifacts[k].store, s.artifacts[k].blobId) != f)
            && (forall d :: d in s.clients && s.clients[d].Settling? ==>
                  File(s.clients[d].job.store, s.clients[d].effective) != f)
            && (forall d :: d in s.clients && (s.clients[d].Mounting? || s.clients[d].MountWriting?) ==>
                  File(s.clients[d].mounted.store, s.clients[d].mounted.blobId) != f)
  {
    RunKeepsInv(EMPTY, steps);
    var s := After(EMPTY, steps);
    var f := File(s.clients[c].job.store, s.clients[c].id);
    assert f in OwnFile(s.clients[c]) && !Named(s, f.id);
    forall k | k in s.artifacts
      ensures s.artifacts[k].blobId != f.id
    {
      assert Certified(s, s.artifacts[k].hash, s.artifacts[k].blobId);
    }
    forall d | d in s.clients
      ensures s.clients[d].Settling? ==> s.clients[d].effective != f.id
      ensures s.clients[d].Mounting? || s.clients[d].MountWriting? ==> s.clients[d].mounted.blobId != f.id
    {
      assert ClientOk(s, s.clients[d]);
    }
  }

  ghost predicate AllDone(s: State) {
    s.orphans == {} && forall c :: c in s.clients ==> s.clients[c].Done?
  }

  /** Once every client is done, with no crash and no failed deletion: no file but the claimed
      ones and no content stored twice, and, while mounts stay within one store, one file for
      each claimed hash of each store. */
  lemma OneFilePerHash(may: Mounts, steps: seq<Step>)
    requires IsRun(EMPTY, steps) && MountsWithin(may, EMPTY, steps) && AllDone(After(EMPTY, steps))
    ensures var s := After(EMPTY, steps);
            && (OneStoreOnly(may) ==> forall k :: k in s.claims ==> File(k.store, s.claims[k]) in s.files)
            && (forall f :: f in s.files ==> Matches(s, f.store, Blake3(s.files[f]), f.id))
            && (forall f, g :: f in s.files && g in s.files && f.store == g.store && s.files[f] == s.files[g] ==> f == g)
  {
    RunKeepsInv(EMPTY, steps);
    var s := After(EMPTY, steps);
    forall f | f in s.files
      ensures Matches(s, f.store, Blake3(s.files[f]), f.id)
    {
    }
    if OneStoreOnly(may) {
      IngestSafe(may, steps);
    }
  }

  /** With crashes or failed deletions, the surplus is exactly the orphans. */
  lemma SurplusIsOrphans(steps: seq<Step>)
    requires IsRun(EMPTY, steps)
    requires forall c :: c in After(EMPTY, steps).clients ==>
               After(EMPTY, steps).clients[c].Done? || After(EMPTY, steps).clients[c].Crashed?
    ensures var s := After(EMPTY, steps);
            forall f :: f in s.files ==> (f in s.orphans <==> !Matches(s, f.store, Blake3(s.files[f]), f.id))
  {
    RunKeepsInv(EMPTY, steps);
    var s := After(EMPTY, steps);
    forall f | f in s.files
      ensures f in s.orphans <==> !Matches(s, f.store, Blake3(s.files[f]), f.id)
    {
    }
  }

  /** Without deletions the re-read after a lost claim always finds the winner, so the
      fallback that writes the record a second time is never reached. */
  lemma WinnerAlwaysThere(steps: seq<Step>, c: nat)
    requires IsRun(EMPTY, steps) && Enabled(After(EMPTY, steps), ReadWinner(c))
    ensures After(EMPTY, steps).clients[c].job.ClaimOf() in After(EMPTY, steps).claims
  {
    RunKeepsInv(EMPTY, steps);
    assert ClientOk(After(EMPTY, steps), After(EMPTY, steps).clients[c]);
  }

  // --- Mounts across stores ---

  /** The three steps of one mount, taken from a safe state without interruption. */
  ghost function Mounted(s: State, c: nat, key: ArtKey, from: ArtKey, dest: Store): State
    requires c !in s.clients && from in s.artifacts
  {
    Apply(Apply(Apply(s, StartMount(c, key, from, dest)), MountClaim(c)), WriteArtifact(c))
  }

  /** One mount, whatever came before it: it leaves every record with its file exactly when its
      destination is the store the mounted record names. */
  lemma MountSafeIff(s: State, c: nat, key: ArtKey, from: ArtKey, dest: Store)
    requires Inv(s) && Stored(s) && c !in s.clients && from in s.artifacts
    ensures Safe(Mounted(s, c, key, from, dest)) <==> dest == s.artifacts[from].store
  {
    hide RecordsOk, ClientsOk;
    var m := s.artifacts[from];
    var s3 := Mounted(s, c, key, from, dest);
    assert s3.files == s.files && s3.artifacts[key] == m.(store := dest);
    assert File(m.store, m.blobId) in s.files;
    if dest == m.store {
      MountWithin(s, c, key, from);
    }
  }

  lemma MountWithin(s: State, c: nat, key: ArtKey, from: ArtKey)
    requires Inv(s) && Stored(s) && c !in s.clients && from in s.artifacts
    ensures Safe(Mounted(s, c, key, from, s.artifacts[from].store))
  {
    hide Inv, Stored, Safe;
    var dest := s.artifacts[from].store;
    var s1 := Apply(s, StartMount(c, key, from, dest));
    StepKeepsInv(s, StartMount(c, key, from, dest));
    StepKeepsStored(s, StartMount(c, key, from, dest));
    var s2 := Apply(s1, MountClaim(c));
    StepKeepsInv(s1, MountClaim(c));
    StepKeepsStored(s1, MountClaim(c));
    StepKeepsInv(s2, WriteArtifact(c));
    StepKeepsStored(s2, WriteArtifact(c));
    StoredIsSafe(Apply(s2, WriteArtifact(c)));
  }

  ghost predicate Reaches(may: Mounts, steps: seq<Step>, s: State) {
    IsRun(EMPTY, steps) && MountsWithin(may, EMPTY, steps) && s == After(EMPTY, steps)
  }

  lemma {:induction false} RunSnoc(may: Mounts, s: State, steps: seq<Step>, a: Step)
    requires IsRun(s, steps) && MountsWithin(may, s, steps) && Enabled(After(s, steps), a)
    requires a.StartMount? ==> may(After(s, steps).artifacts[a.from].store, a.dest)
    ensures IsRun(s, steps + [a]) && MountsWithin(may, s, steps + [a])
    ensures After(s, steps + [a]) == Apply(After(s, steps), a)
    decreases |steps|
  {
    if steps == [] {
      assert [] + [a] == [a] && [a][1..] == [];
    } else {
      RunSnoc(may, Apply(s, steps[0]), steps[1..], a);
      assert (steps + [a])[1..] == steps[1..] + [a];
    }
  }

  lemma Extend(may: Mounts, steps: seq<Step>, s: State, a: Step) returns (steps': seq<Step>, s': State)
    requires Reaches(may, steps, s) && Enabled(s, a)
    requires a.StartMount? ==> may(s.artifacts[a.from].store, a.dest)
    ensures Reaches(may, steps', s') && s' == Apply(s, a)
  {
    steps' := steps + [a];
    s' := Apply(s, a);
    RunSnoc(may, EMPTY, steps, a);
  }

  lemma EmptyRun(may: Mounts)
    ensures Reaches(may, [], EMPTY)
  {
  }

  const FIRST := ArtKey("first", "layer")
  const SECOND := ArtKey("second", "layer")
  const THIRD := ArtKey("third", "layer")

  /** Client 1 uploads some content to store `a`. */
  lemma Uploaded(may: Mounts, a: Store, data: Bytes) returns (steps: seq<Step>, s: State)
    ensures Reaches(may, steps, s)
    ensures s == State(map[File(a, 0) := data], map[Claim(a, Blake3(data)) := 0],
                       map[FIRST := Artifact(a, 0, Blake3(data))], map[1 := Done], {}, 1)
  {
    hide IsRun, After, MountsWithin;
    EmptyRun(may);
    steps, s := Extend(may, [], EMPTY, Start(1, Job(a, FIRST, data)));
    steps, s := Extend(may, steps, s, Upload(1));
    steps, s := Extend(may, steps, s, PutIfAbsent(1));
    steps, s := Extend(may, steps, s, WriteArtifact(1));
    steps, s := Extend(may, steps, s, Finish(1));
  }

  /** Client 2 mounts it into a repository of another store. */
  lemma MountedAcross(may: Mounts, a: Store, b: Store, data: Bytes) returns (steps: seq<Step>, s: State)
    requires may(a, b) && a != b
    ensures Reaches(may, steps, s)
    ensures s == State(map[File(a, 0) := data], map[Claim(a, Blake3(data)) := 0, Claim(b, Blake3(data)) := 0],
                       map[FIRST := Artifact(a, 0, Blake3(data)), SECOND := Artifact(b, 0, Blake3(data))],
                       map[1 := Done, 2 := Done], {}, 1)
  {
    hide IsRun, After, MountsWithin;
    steps, s := Uploaded(may, a, data);
    steps, s := Extend(may, steps, s, StartMount(2, SECOND, FIRST, b));
    steps, s := Extend(may, steps, s, MountClaim(2));
    steps, s := Extend(may, steps, s, WriteArtifact(2));
  }

  /** What the mount does to others: client 3 uploads the same content to store `b`, loses the
      claim to a file that is not there, and drops its own good copy. Everyone is done, nothing
      failed, and store `b` holds nothing although two records name its copy. */
  lemma MountLosesUpload(may: Mounts, a: Store, b: Store, data: Bytes) returns (steps: seq<Step>, s: State)
    requires may(a, b) && a != b
    ensures Reaches(may, steps, s) && AllDone(s)
    ensures Claim(b, Blake3(data)) in s.claims && THIRD in s.artifacts && s.artifacts[THIRD].store == b
    ensures forall f :: f in s.files ==> f.store != b
  {
    hide IsRun, After, MountsWithin;
    steps, s := MountedAcross(may, a, b, data);
    steps, s := Extend(may, steps, s, Start(3, Job(b, THIRD, data)));
    steps, s := Extend(may, steps, s, Upload(3));
    steps, s := Extend(may, steps, s, PutIfAbsent(3));
    steps, s := Extend(may, steps, s, ReadWinner(3));
    steps, s := Extend(may, steps, s, DropDuplicate(3, true));
    steps, s := Extend(may, steps, s, WriteArtifact(3));
    steps, s := Extend(may, steps, s, Finish(3));
  }

  ghost predicate AllRunsSafe(may: Mounts) {
    forall steps :: IsRun(EMPTY, steps) && MountsWithin(may, EMPTY, steps) ==> Safe(After(EMPTY, steps))
  }

  /** All runs of a deployment are safe exactly when it mounts within one store only. */
  lemma AllRunsSafeIff(may: Mounts)
    ensures AllRunsSafe(may) <==> OneStoreOnly(may)
  {
    hide IsRun, After, MountsWithin;
    if OneStoreOnly(may) {
      forall steps | IsRun(EMPTY, steps) && MountsWithin(may, EMPTY, steps)
        ensures Safe(After(EMPTY, steps))
      {
        IngestSafe(may, steps);
      }
    } else {
      var a, b :| may(a, b) && a != b;
      var steps, s := MountedAcross(may, a, b, []);
      assert s.artifacts[SECOND] == Artifact(b, 0, Blake3([])) && File(b, 0) !in s.files;
      assert !Safe(s);
    }
  }
}
