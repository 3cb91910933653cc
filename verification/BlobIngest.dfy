/** Content-addressed ingest by any number of concurrent clients, without garbage
    collection: upload under a fresh id, claim the hash, on losing the claim read the
    winner, drop the duplicate, write the artifact record. Every action is one atomic
    KV or blob-store operation; any interleaving is a run, and any client may crash. A mount
    copies a record into another repository, whose store need not be the source's. */
module BlobIngest {
  import opened Chunks
  import opened Blobs

  datatype ArtKey = ArtKey(repo: string, path: string)

  datatype Artifact = Artifact(store: Store, blobId: BlobId, hash: Hash)

  datatype Job = Job(store: Store, key: ArtKey, data: Bytes) {
    function ClaimOf(): Claim {
      Claim(store, Blake3(data))
    }
  }

  /** `Settling` still owes the duplicate's deletion, the artifact write, or both: the
      ingest paths do these two in different orders, or at once, so any order is allowed. */
  datatype Client =
    | Uploading(job: Job)
    | Claiming(job: Job, id: BlobId)
    | Losing(job: Job, id: BlobId)
    | Settling(job: Job, id: BlobId, effective: BlobId, dropDuplicate: bool, writeArtifact: bool)
    | Mounting(key: ArtKey, mounted: Artifact)
    | MountWriting(key: ArtKey, mounted: Artifact)
    | Done
    | Crashed

  /** `orphans` is bookkeeping of the model: files whose owner crashed or whose deletion
      failed and was ignored; garbage collection would reclaim them. */
  datatype State = State(
    files: map<File, Bytes>,
    claims: map<Claim, BlobId>,
    artifacts: map<ArtKey, Artifact>,
    clients: map<nat, Client>,
    orphans: set<File>,
    nextId: BlobId)

  const EMPTY := State(map[], map[], map[], map[], {}, 0)

  datatype Step =
    | Start(c: nat, job: Job)
    | Upload(c: nat)
    | PutIfAbsent(c: nat)
    | ReadWinner(c: nat)
    | DropDuplicate(c: nat, deleted: bool)
    | WriteArtifact(c: nat)
    | StartMount(c: nat, key: ArtKey, from: ArtKey, dest: Store)
    | MountClaim(c: nat)
    | Finish(c: nat)
    | Crash(c: nat)

  ghost predicate Enabled(s: State, a: Step) {
    if a.Start? then a.c !in s.clients
    else if a.StartMount? then a.c !in s.clients && a.from in s.artifacts
    else
      a.c in s.clients
      && var me := s.clients[a.c];
      match a
      case Upload(_) => me.Uploading?
      case PutIfAbsent(_) => me.Claiming?
      case ReadWinner(_) => me.Losing?
      case DropDuplicate(_, _) => me.Settling? && me.dropDuplicate
      case WriteArtifact(_) => (me.Settling? && me.writeArtifact) || me.MountWriting?
      case MountClaim(_) => me.Mounting?
      case Finish(_) => me.Settling? && !me.dropDuplicate && !me.writeArtifact
      case Crash(_) => !me.Done? && !me.Crashed?
  }

  /** The uploaded file a client is still responsible for: not claimed, not yet dropped. */
  function OwnFile(me: Client): set<File> {
    match me
    case Claiming(job, id) => {File(job.store, id)}
    case Losing(job, id) => {File(job.store, id)}
    case Settling(job, id, _, dropDuplicate, _) => if dropDuplicate then {File(job.store, id)} else {}
    case _ => {}
  }

  ghost function Apply(s: State, a: Step): State
    requires Enabled(s, a)
  {
    match a
    case Start(c, job) => s.(clients := s.clients[c := Uploading(job)])
    case StartMount(c, key, from, dest) =>
      s.(clients := s.clients[c := Mounting(key, s.artifacts[from].(store := dest))])
    case Upload(c) =>
      var job := s.clients[c].job;
      s.(files := s.files[File(job.store, s.nextId) := job.data],
         clients := s.clients[c := Claiming(job, s.nextId)],
         nextId := s.nextId + 1)
    case PutIfAbsent(c) =>
      var me := s.clients[c];
      if me.job.ClaimOf() in s.claims then s.(clients := s.clients[c := Losing(me.job, me.id)])
      else
        s.(claims := s.claims[me.job.ClaimOf() := me.id],
           clients := s.clients[c := Settling(me.job, me.id, me.id, false, true)])
    case ReadWinner(c) =>
      var me := s.clients[c];
      if me.job.ClaimOf() in s.claims then
        s.(clients := s.clients[c := Settling(me.job, me.id, s.claims[me.job.ClaimOf()], true, true)])
      else
        s.(claims := s.claims[me.job.ClaimOf() := me.id],
           clients := s.clients[c := Settling(me.job, me.id, me.id, false, true)])
    case DropDuplicate(c, deleted) =>
      var me := s.clients[c];
      var f := File(me.job.store, me.id);
      s.(files := if deleted then s.files - {f} else s.files,
         orphans := if deleted then s.orphans else s.orphans + {f},
         clients := s.clients[c := me.(dropDuplicate := false)])
    case WriteArtifact(c) =>
      var me := s.clients[c];
      if me.MountWriting? then
        s.(artifacts := s.artifacts[me.key := me.mounted], clients := s.clients[c := Done])
      else
        s.(artifacts := s.artifacts[me.job.key := Artifact(me.job.store, me.effective, Blake3(me.job.data))],
           clients := s.clients[c := me.(writeArtifact := false)])
    case MountClaim(c) =>
      var me := s.clients[c];
      var claim := Claim(me.mounted.store, me.mounted.hash);
      s.(claims := if claim in s.claims then s.claims else s.claims[claim := me.mounted.blobId],
         clients := s.clients[c := MountWriting(me.key, me.mounted)])
    case Finish(c) => s.(clients := s.clients[c := Done])
    case Crash(c) =>
      s.(orphans := s.orphans + OwnFile(s.clients[c]), clients := s.clients[c := Crashed])
  }

  // --- The inductive invariant, whatever is mounted where ---

  /** Some blob record names this id. */
  ghost predicate Named(s: State, id: BlobId) {
    exists k :: k in s.claims && s.claims[k] == id
  }

  /** Some blob record names this id for this hash. */
  ghost predicate Certified(s: State, hash: Hash, id: BlobId) {
    exists k :: k in s.claims && k.hash == hash && s.claims[k] == id
  }

  /** If the claimed id is stored anywhere, its content has the claimed hash. */
  ghost predicate Honest(s: State, k: Claim) {
    k in s.claims && s.claims[k] < s.nextId
    && forall f :: f in s.files && f.id == s.claims[k] ==> Blake3(s.files[f]) == k.hash
  }

  ghost predicate Canonical(s: State, f: File) {
    exists k :: k in s.claims && k.store == f.store && s.claims[k] == f.id
  }

  ghost predicate Owned(s: State, f: File) {
    exists c :: c in s.clients && f in OwnFile(s.clients[c])
  }

  ghost predicate Matches(s: State, store: Store, hash: Hash, id: BlobId) {
    Claim(store, hash) in s.claims && s.claims[Claim(store, hash)] == id
  }

  ghost predicate ClientOk(s: State, me: Client) {
    match me
    case Claiming(job, id) => File(job.store, id) in s.files && s.files[File(job.store, id)] == job.data
    case Losing(job, id) =>
      File(job.store, id) in s.files && s.files[File(job.store, id)] == job.data && job.ClaimOf() in s.claims
    case Settling(job, id, effective, dropDuplicate, _) =>
      Matches(s, job.store, Blake3(job.data), effective) && (dropDuplicate ==> File(job.store, id) in s.files)
    case Mounting(_, m) => Certified(s, m.hash, m.blobId)
    case MountWriting(_, m) => Certified(s, m.hash, m.blobId)
    case _ => true
  }

  ghost predicate RecordsOk(s: State) {
    && (forall k :: k in s.claims ==> Honest(s, k))
    && (forall k :: k in s.artifacts ==> Certified(s, s.artifacts[k].hash, s.artifacts[k].blobId))
  }

  ghost predicate ClientsOk(s: State) {
    forall c :: c in s.clients ==> ClientOk(s, s.clients[c])
  }

  /** No id is used twice, and every file has a reason to exist. */
  ghost predicate Accounted(s: State) {
    && (forall f :: f in s.files ==> f.id < s.nextId)
    && (forall f, g :: f in s.files && g in s.files && f.id == g.id ==> f == g)
    && (forall f :: f in s.orphans ==> f in s.files && !Named(s, f.id))
    && (forall f :: f in s.files ==> Canonical(s, f) || Owned(s, f) || f in s.orphans)
  }

  /** An owner's file is stored, is nobody else's, and is named by no record yet. */
  ghost predicate OwnersOk(s: State) {
    && (forall c, f :: c in s.clients && f in OwnFile(s.clients[c])
                       ==> f in s.files && !Named(s, f.id) && f !in s.orphans)
    && (forall c, d, f :: c in s.clients && d in s.clients && c != d && f in OwnFile(s.clients[c])
                          ==> f !in OwnFile(s.clients[d]))
  }

  ghost predicate FilesOk(s: State) {
    Accounted(s) && OwnersOk(s)
  }

  ghost predicate Inv(s: State) {
    RecordsOk(s) && ClientsOk(s) && FilesOk(s)
  }

  /** Claims only grow, and a claim never changes its winner. */
  ghost predicate ClaimsKept(s: State, s': State) {
    forall k :: k in s.claims ==> k in s'.claims && s'.claims[k] == s.claims[k]
  }

  lemma StepKeepsInv(s: State, a: Step)
    requires Inv(s) && Enabled(s, a)
    ensures Inv(Apply(s, a)) && ClaimsKept(s, Apply(s, a))
  {
    hide RecordsOk, ClientsOk, FilesOk;
    if a.Upload? {
      UploadKeeps(s, a.c);
    } else if a.DropDuplicate? || a.Crash? {
      GivenUpKeeps(s, a);
    } else if Apply(s, a).claims == s.claims {
      PhaseKeeps(s, a);
    } else if a.MountClaim? {
      MountedClaim(s, a.c, Apply(s, a));
    } else {
      NewClaim(s, a.c, Apply(s, a));
    }
  }

  /** Starting, finishing, writing the artifact, finding the hash claimed: no file and no claim
      changes, and an artifact written names a claimed id under the hash of its claim. */
  lemma PhaseKeeps(s: State, a: Step)
    requires Inv(s) && Enabled(s, a) && Apply(s, a).claims == s.claims
    requires !a.Upload? && !a.DropDuplicate? && !a.Crash?
    ensures Inv(Apply(s, a))
  {
    hide Honest, Canonical, Owned, Named, FilesOk;
    if a.c in s.clients {
      assert ClientOk(s, s.clients[a.c]);
    }
    SameStore(s, Apply(s, a), a.c);
  }

  /** Neither files nor claims changed. */
  lemma SameClaims(s: State, s': State)
    requires s'.files == s.files && s'.claims == s.claims && s'.nextId == s.nextId
    ensures forall f :: Canonical(s', f) <==> Canonical(s, f)
    ensures forall k :: Honest(s', k) <==> Honest(s, k)
    ensures forall id :: Named(s', id) <==> Named(s, id)
    ensures forall h, id :: Certified(s', h, id) <==> Certified(s, h, id)
    ensures forall store, h, id :: Matches(s', store, h, id) <==> Matches(s, store, h, id)
  {
  }

  lemma SameOwners(s: State, s': State, c: nat)
    requires forall d :: d in s.clients ==> d in s'.clients && (d != c ==> s'.clients[d] == s.clients[d])
    requires forall d :: d in s'.clients ==> d in s.clients || d == c
    requires c in s'.clients && OwnFile(s'.clients[c]) == if c in s.clients then OwnFile(s.clients[c]) else {}
    ensures forall f :: Owned(s', f) <==> Owned(s, f)
  {
    forall f
      ensures Owned(s', f) <==> Owned(s, f)
    {
      if Owned(s, f) {
        var d :| d in s.clients && f in OwnFile(s.clients[d]);
        assert d in s'.clients && f in OwnFile(s'.clients[d]);
      }
    }
  }

  lemma UploadKeeps(s: State, c: nat)
    requires Inv(s) && Enabled(s, Upload(c))
    ensures Inv(Apply(s, Upload(c)))
  {
    var s' := Apply(s, Upload(c));
    var added := File(s.clients[c].job.store, s.nextId);
    UploadRecords(s, s', added);
    UploadClients(s, c, s', added);
    UploadFiles(s, c, s', added);
  }

  /** A new file changes no record and hence no file's standing. */
  lemma UploadRecords(s: State, s': State, added: File)
    requires RecordsOk(s) && added !in s.files && added.id == s.nextId && s'.nextId == s.nextId + 1
    requires s'.files.Keys == s.files.Keys + {added} && forall f :: f in s.files ==> s'.files[f] == s.files[f]
    requires s'.claims == s.claims && s'.artifacts == s.artifacts
    ensures RecordsOk(s') && !Named(s', added.id)
    ensures forall f :: Canonical(s', f) <==> Canonical(s, f)
    ensures forall id :: Named(s', id) <==> Named(s, id)
  {
    forall k | k in s.claims
      ensures Honest(s', k) && s.claims[k] != added.id
    {
      assert Honest(s, k);
    }
    forall k | k in s.artifacts
      ensures Certified(s', s.artifacts[k].hash, s.artifacts[k].blobId)
    {
      assert Certified(s, s.artifacts[k].hash, s.artifacts[k].blobId);
    }
  }

  lemma UploadClients(s: State, c: nat, s': State, added: File)
    requires ClientsOk(s) && Enabled(s, Upload(c)) && s' == Apply(s, Upload(c))
    requires added == File(s.clients[c].job.store, s.nextId) && added !in s.files
    ensures ClientsOk(s')
  {
    forall d | d in s'.clients
      ensures ClientOk(s', s'.clients[d])
    {
      if d != c {
        assert ClientOk(s, s.clients[d]);
      }
    }
  }

  lemma UploadFiles(s: State, c: nat, s': State, added: File)
    requires FilesOk(s) && c in s.clients && c in s'.clients && added.id == s.nextId
    requires s'.files.Keys == s.files.Keys + {added} && s'.orphans == s.orphans && s'.nextId == s.nextId + 1
    requires s'.clients == s.clients[c := s'.clients[c]]
    requires OwnFile(s.clients[c]) == {} && OwnFile(s'.clients[c]) == {added}
    requires !Named(s', added.id) && forall id :: Named(s', id) <==> Named(s, id)
    requires forall f :: Canonical(s', f) <==> Canonical(s, f)
    ensures FilesOk(s')
  {
    hide Canonical, Named, OwnFile;
    UploadOwners(s, c, s', added);
    hide OwnersOk;
    forall f | f in s'.files
      ensures Canonical(s', f) || Owned(s', f) || f in s'.orphans
    {
      if f == added {
        assert f in OwnFile(s'.clients[c]);
      } else if Owned(s, f) {
        var d :| d in s.clients && f in OwnFile(s.clients[d]);
        assert d in s'.clients && f in OwnFile(s'.clients[d]);
      }
    }
  }

  lemma UploadOwners(s: State, c: nat, s': State, added: File)
    requires FilesOk(s) && c in s.clients && c in s'.clients && added.id == s.nextId
    requires s'.files.Keys == s.files.Keys + {added} && s'.orphans == s.orphans
    requires s'.clients == s.clients[c := s'.clients[c]]
    requires OwnFile(s.clients[c]) == {} && OwnFile(s'.clients[c]) == {added}
    requires !Named(s', added.id) && forall id :: Named(s', id) <==> Named(s, id)
    ensures OwnersOk(s')
  {
    hide Canonical, Named, Owned, OwnFile;
  }

  /** One more claim: what it adds to the names, and that nothing is taken away. */
  lemma MoreClaims(s: State, s': State, k: Claim, id: BlobId)
    requires k !in s.claims && s'.claims == s.claims[k := id]
    ensures forall x :: Named(s', x) <==> Named(s, x) || x == id
    ensures forall f :: Canonical(s, f) || f == File(k.store, id) ==> Canonical(s', f)
    ensures forall h, x :: Certified(s, h, x) || (h == k.hash && x == id) ==> Certified(s', h, x)
    ensures forall store, h, x :: Matches(s, store, h, x) ==> Matches(s', store, h, x)
  {
    assert k in s'.claims && s'.claims[k] == id;
    assert forall j :: j in s.claims ==> j in s'.claims && s'.claims[j] == s.claims[j];
  }

  /** The claim is new, so the claimed file had no other reason to exist. */
  lemma NewClaim(s: State, c: nat, s': State)
    requires Inv(s) && c in s.clients && (s.clients[c].Claiming? || s.clients[c].Losing?)
    requires var me := s.clients[c];
             me.job.ClaimOf() !in s.claims
             && s' == s.(claims := s.claims[me.job.ClaimOf() := me.id],
                         clients := s.clients[c := Settling(me.job, me.id, me.id, false, true)])
    ensures Inv(s') && ClaimsKept(s, s')
  {
    var me := s.clients[c];
    var mine := File(me.job.store, me.id);
    assert ClientOk(s, me) && mine in OwnFile(me);
    MoreClaims(s, s', me.job.ClaimOf(), me.id);
    NewClaimClients(s, c, s');
    NewClaimFiles(s, c, s', mine);
  }

  lemma NewClaimClients(s: State, c: nat, s': State)
    requires ClientsOk(s) && c in s.clients && (s.clients[c].Claiming? || s.clients[c].Losing?)
    requires var me := s.clients[c];
             me.job.ClaimOf() !in s.claims
             && s' == s.(claims := s.claims[me.job.ClaimOf() := me.id],
                         clients := s.clients[c := Settling(me.job, me.id, me.id, false, true)])
    ensures ClientsOk(s')
  {
    var me := s.clients[c];
    MoreClaims(s, s', me.job.ClaimOf(), me.id);
    hide Certified;
    forall d | d in s'.clients
      ensures ClientOk(s', s'.clients[d])
    {
      assert d != c ==> ClientOk(s, s.clients[d]);
    }
  }

  /** The claimed file passes from its owner to its claim. */
  lemma NewClaimFiles(s: State, c: nat, s': State, mine: File)
    requires FilesOk(s) && c in s.clients && c in s'.clients && OwnFile(s.clients[c]) == {mine}
    requires s'.files == s.files && s'.orphans == s.orphans && s'.nextId == s.nextId
    requires s'.clients == s.clients[c := s'.clients[c]] && OwnFile(s'.clients[c]) == {}
    requires forall id :: Named(s', id) <==> Named(s, id) || id == mine.id
    requires forall f :: Canonical(s, f) || f == mine ==> Canonical(s', f)
    ensures FilesOk(s')
  {
    hide Canonical, Named, OwnFile;
    NewClaimOwners(s, c, s', mine);
    assert mine in s.files && mine !in s.orphans;
    hide OwnersOk;
    forall f | f in s'.files
      ensures Canonical(s', f) || Owned(s', f) || f in s'.orphans
    {
      if f != mine && Owned(s, f) {
        var d :| d in s.clients && f in OwnFile(s.clients[d]);
        assert d != c && d in s'.clients && f in OwnFile(s'.clients[d]);
      }
    }
  }

  lemma NewClaimOwners(s: State, c: nat, s': State, mine: File)
    requires FilesOk(s) && c in s.clients && c in s'.clients && OwnFile(s.clients[c]) == {mine}
    requires s'.files == s.files && s'.orphans == s.orphans
    requires s'.clients == s.clients[c := s'.clients[c]] && OwnFile(s'.clients[c]) == {}
    requires forall id :: Named(s', id) <==> Named(s, id) || id == mine.id
    ensures OwnersOk(s')
  {
    hide Canonical, Named, Owned, OwnFile;
    assert mine in s.files;
    forall d, f | d in s'.clients && f in OwnFile(s'.clients[d])
      ensures d in s.clients && f in OwnFile(s.clients[d]) && f.id != mine.id
    {
      assert d != c && s'.clients[d] == s.clients[d];
      assert f != mine && f in s.files;
    }
  }

  /** Only one client's phase changed, or an artifact record; no file, no claim, and no
      file's owner. */
  lemma SameStore(s: State, s': State, c: nat)
    requires Inv(s) && c in s'.clients && s'.clients == s.clients[c := s'.clients[c]]
    requires s'.files == s.files && s'.claims == s.claims && s'.orphans == s.orphans && s'.nextId == s.nextId
    requires OwnFile(s'.clients[c]) == if c in s.clients then OwnFile(s.clients[c]) else {}
    requires ClientOk(s', s'.clients[c])
    requires forall k :: k in s'.artifacts ==> Certified(s, s'.artifacts[k].hash, s'.artifacts[k].blobId)
    ensures Inv(s')
  {
    hide Honest, Matches, Certified, FilesOk, ClientOk, OwnFile;
    SameClaims(s, s');
    OtherClientsOk(s, s', c);
    SameFiles(s, s', c);
  }

  lemma SameFiles(s: State, s': State, c: nat)
    requires FilesOk(s) && c in s'.clients && s'.clients == s.clients[c := s'.clients[c]]
    requires s'.files == s.files && s'.claims == s.claims && s'.orphans == s.orphans && s'.nextId == s.nextId
    requires OwnFile(s'.clients[c]) == if c in s.clients then OwnFile(s.clients[c]) else {}
    ensures FilesOk(s')
  {
    hide Canonical, Owned, Named;
    SameOwners(s, s', c);
    SameClaims(s, s');
  }

  lemma OtherClientsOk(s: State, s': State, c: nat)
    requires s'.files == s.files && s'.claims == s.claims && s'.nextId == s.nextId
    requires forall d :: d in s.clients ==> ClientOk(s, s.clients[d])
    requires c in s'.clients && s'.clients == s.clients[c := s'.clients[c]] && ClientOk(s', s'.clients[c])
    ensures forall d :: d in s'.clients ==> ClientOk(s', s'.clients[d])
  {
    SameClaims(s, s');
    hide Certified;
    forall d | d in s'.clients
      ensures ClientOk(s', s'.clients[d])
    {
      if d != c {
        assert ClientOk(s, s.clients[d]);
      }
    }
  }

  /** A mount's new claim names an id that was named already. */
  lemma MountedClaim(s: State, c: nat, s': State)
    requires Inv(s) && Enabled(s, MountClaim(c)) && s' == Apply(s, MountClaim(c))
    requires Claim(s.clients[c].mounted.store, s.clients[c].mounted.hash) !in s.claims
    ensures Inv(s')
  {
    var m := s.clients[c].mounted;
    var k := Claim(m.store, m.hash);
    assert ClientOk(s, s.clients[c]);
    var j :| j in s.claims && j.hash == m.hash && s.claims[j] == m.blobId;
    assert Honest(s, j);
    MoreClaims(s, s', k, m.blobId);
    assert Named(s, m.blobId);
    MountedClients(s, c, s');
    MountedFiles(s, c, s');
  }

  lemma MountedClients(s: State, c: nat, s': State)
    requires ClientsOk(s) && c in s'.clients && s'.clients == s.clients[c := s'.clients[c]]
    requires s'.files == s.files && ClientOk(s', s'.clients[c])
    requires forall k :: k in s.claims ==> k in s'.claims
    requires forall h, x :: Certified(s, h, x) ==> Certified(s', h, x)
    requires forall store, h, x :: Matches(s, store, h, x) ==> Matches(s', store, h, x)
    ensures ClientsOk(s')
  {
    hide Certified, Matches;
    forall d | d in s'.clients
      ensures ClientOk(s', s'.clients[d])
    {
      assert d != c ==> ClientOk(s, s.clients[d]);
    }
  }

  lemma MountedFiles(s: State, c: nat, s': State)
    requires FilesOk(s) && c in s.clients && c in s'.clients && s'.clients == s.clients[c := s'.clients[c]]
    requires OwnFile(s.clients[c]) == OwnFile(s'.clients[c]) == {}
    requires s'.files == s.files && s'.orphans == s.orphans && s'.nextId == s.nextId
    requires forall id :: Named(s', id) <==> Named(s, id)
    requires forall f :: Canonical(s, f) ==> Canonical(s', f)
    ensures FilesOk(s')
  {
    hide Canonical, Named, Owned;
    SameOwners(s, s', c);
  }

  /** The owner gives its file up: dropped from the store, or left behind as an orphan. */
  lemma FileGivenUp(s: State, s': State, c: nat, gone: set<File>, left: set<File>)
    requires Inv(s) && c in s.clients && c in s'.clients
    requires s' == s.(files := s.files - gone, orphans := s.orphans + left, clients := s.clients[c := s'.clients[c]])
    requires gone + left == OwnFile(s.clients[c]) && gone * left == {}
    requires OwnFile(s'.clients[c]) == {} && ClientOk(s', s'.clients[c])
    ensures Inv(s')
  {
    GoneRecords(s, s', gone);
    GoneClients(s, s', c, gone);
    GoneFiles(s, s', c, gone, left);
  }

  lemma GoneRecords(s: State, s': State, gone: set<File>)
    requires RecordsOk(s) && s'.nextId == s.nextId
    requires s'.files == s.files - gone && s'.claims == s.claims && s'.artifacts == s.artifacts
    ensures RecordsOk(s')
  {
    forall k | k in s.claims
      ensures Honest(s', k)
    {
      assert Honest(s, k);
    }
    forall k | k in s.artifacts
      ensures Certified(s', s.artifacts[k].hash, s.artifacts[k].blobId)
    {
      assert Certified(s, s.artifacts[k].hash, s.artifacts[k].blobId);
    }
  }

  lemma GoneClients(s: State, s': State, c: nat, gone: set<File>)
    requires ClientsOk(s) && FilesOk(s) && c in s.clients && c in s'.clients && gone <= OwnFile(s.clients[c])
    requires s'.files == s.files - gone && s'.claims == s.claims && s'.clients == s.clients[c := s'.clients[c]]
    requires ClientOk(s', s'.clients[c])
    ensures ClientsOk(s')
  {
    hide Canonical, Owned;
    assert forall h, x :: Certified(s', h, x) <==> Certified(s, h, x);
    forall d | d in s'.clients
      ensures ClientOk(s', s'.clients[d])
    {
      if d != c {
        assert ClientOk(s, s.clients[d]);
        assert OwnFile(s.clients[d]) !! gone;
      }
    }
  }

  lemma GoneFiles(s: State, s': State, c: nat, gone: set<File>, left: set<File>)
    requires FilesOk(s) && c in s.clients && c in s'.clients && gone + left == OwnFile(s.clients[c]) && gone !! left
    requires s'.files == s.files - gone && s'.orphans == s.orphans + left && s'.claims == s.claims
    requires s'.clients == s.clients[c := s'.clients[c]] && s'.nextId == s.nextId && OwnFile(s'.clients[c]) == {}
    ensures FilesOk(s')
  {
    assert forall f :: Canonical(s', f) <==> Canonical(s, f);
    assert forall id :: Named(s', id) <==> Named(s, id);
    hide Canonical, Named;
    GoneOwners(s, s', c, gone, left);
    GoneReasons(s, s', c, gone, left);
  }

  lemma GoneReasons(s: State, s': State, c: nat, gone: set<File>, left: set<File>)
    requires FilesOk(s) && c in s.clients && gone + left == OwnFile(s.clients[c]) && gone !! left
    requires s'.files == s.files - gone && s'.orphans == s.orphans + left && s'.nextId == s.nextId
    requires s'.clients.Keys == s.clients.Keys
    requires forall d :: d in s.clients && d != c ==> s'.clients[d] == s.clients[d]
    requires forall id :: Named(s', id) <==> Named(s, id)
    requires forall f :: Canonical(s', f) <==> Canonical(s, f)
    ensures Accounted(s')
  {
    hide Canonical, Named, OwnFile;
    forall f | f in gone + left
      ensures f in s.files && !Named(s, f.id) && f !in s.orphans
    {
    }
    hide OwnersOk;
    forall f | f in s'.files
      ensures Canonical(s', f) || Owned(s', f) || f in s'.orphans
    {
      if Owned(s, f) && f !in s'.orphans {
        var d :| d in s.clients && f in OwnFile(s.clients[d]);
        assert f !in gone + left;
        assert d in s'.clients && f in OwnFile(s'.clients[d]);
      }
    }
  }

  lemma GoneOwners(s: State, s': State, c: nat, gone: set<File>, left: set<File>)
    requires OwnersOk(s) && c in s.clients && gone + left == OwnFile(s.clients[c])
    requires s'.files == s.files - gone && s'.orphans == s.orphans + left && s'.clients.Keys == s.clients.Keys
    requires forall id :: Named(s', id) <==> Named(s, id)
    requires forall d :: d in s.clients && d != c ==> s'.clients[d] == s.clients[d]
    requires OwnFile(s'.clients[c]) == {}
    ensures OwnersOk(s')
  {
    hide Named, OwnFile;
    forall d, f | d in s'.clients && f in OwnFile(s'.clients[d])
      ensures f !in gone + left
    {
      assert d in s.clients && c in s.clients && d != c;
    }
  }

  /** What a step that gives the file up takes from the store. */
  function Gone(s: State, a: Step): set<File>
    requires a.c in s.clients
  {
    if a.DropDuplicate? && a.deleted then OwnFile(s.clients[a.c]) else {}
  }

  lemma GivenUpClient(s: State, a: Step)
    requires Enabled(s, a) && (a.DropDuplicate? || a.Crash?) && ClientOk(s, s.clients[a.c])
    ensures var s' := Apply(s, a);
            && s' == s.(files := s.files - Gone(s, a), orphans := s.orphans + (OwnFile(s.clients[a.c]) - Gone(s, a)),
                        clients := s.clients[a.c := s'.clients[a.c]])
            && OwnFile(s'.clients[a.c]) == {} && ClientOk(s', s'.clients[a.c])
  {
  }

  lemma GivenUpKeeps(s: State, a: Step)
    requires Inv(s) && Enabled(s, a) && (a.DropDuplicate? || a.Crash?)
    ensures Inv(Apply(s, a)) && Apply(s, a).claims == s.claims
  {
    hide FilesOk, RecordsOk;
    assert ClientOk(s, s.clients[a.c]);
    GivenUpClient(s, a);
    hide ClientsOk, ClientOk, OwnFile, Gone;
    FileGivenUp(s, Apply(s, a), a.c, Gone(s, a), OwnFile(s.clients[a.c]) - Gone(s, a));
  }
}
