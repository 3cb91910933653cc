/** Copying or moving one Docker tag between repositories: the manifest-closure walk, the
    per-record copy with its cross-store re-homing, and the tag-last order. Every write is
    recorded in a ghost trace, so that what holds "at every prefix" can be said. */
module TagCopy {
  import opened Lex
  import opened Chunks
  import opened Blobs
  import opened Sums
  import opened Requests

  type Repo = string
  type Digest = string

  datatype Path =
    | BlobRef(digest: Digest)
    | Manifest(image: Option<string>, digest: Digest)
    | TagPath(image: Option<string>, tag: string)
    | Other(name: string)

  datatype Kind = DockerTag(digest: Digest) | DockerManifest | DockerBlob | Raw

  /** `blobId` is `None` for a missing or empty blob id; `meta` stands for the timestamps
      and the other fields a copy must preserve. */
  datatype Record = Record(kind: Kind, blobId: Option<BlobId>, contentHash: Option<Hash>, size: nat, meta: string)

  datatype Key = Key(repo: Repo, path: Path)

  datatype World = World(artifacts: map<Key, Record>, claims: map<Claim, BlobId>, files: map<File, Bytes>, nextId: BlobId)

  datatype Target = Target(sourceRepo: Repo, sourceStore: Store, destRepo: Repo, destStore: Store) {
    predicate SameStore() {
      sourceStore == destStore
    }

    function From(p: Path): Key {
      Key(sourceRepo, p)
    }

    function To(p: Path): Key {
      Key(destRepo, p)
    }

    /** A repository has one store. */
    predicate Sensible() {
      sourceRepo == destRepo ==> sourceStore == destStore
    }
  }

  datatype Error = NotFound | Conflict | DataIntegrity | Io

  datatype Result<T> = Ok(value: T) | Err(error: Error)

  // --- Manifests ---

  /** A parsed manifest; entries without a digest string are `None`. */
  datatype Json =
    | Unparsable
    | Index(manifests: seq<Option<Digest>>)
    | Image(config: Option<Digest>, layers: seq<Option<Digest>>)

  function Present(s: seq<Option<Digest>>): (r: seq<Digest>)
    ensures forall d :: d in r <==> Some(d) in s
  {
    if s == [] then []
    else
      assert s == [s[0]] + s[1..];
      (if s[0].Some? then [s[0].value] else []) + Present(s[1..])
  }

  /** An index lists its child manifests. */
  predicate ListsChild(j: Json, c: Digest) {
    j.Index? && Some(c) in j.manifests
  }

  /** An image names its config and its layers. */
  predicate NamesBlob(j: Json, b: Digest) {
    j.Image? && (j.config == Some(b) || Some(b) in j.layers)
  }

  /** The child manifests and the blobs a manifest names; never both. */
  function ClassifyManifest(j: Json): (r: (seq<Digest>, seq<Digest>))
    ensures forall c :: c in r.0 <==> ListsChild(j, c)
    ensures forall b :: b in r.1 <==> NamesBlob(j, b)
  {
    match j
    case Unparsable => ([], [])
    case Index(manifests) => (Present(manifests), [])
    case Image(config, layers) => ([], Present([config]) + Present(layers))
  }

  function ReadManifest(w: World, t: Target, p: Path): Option<Bytes> {
    if t.From(p) !in w.artifacts then None
    else
      var rec := w.artifacts[t.From(p)];
      if rec.blobId.None? || File(t.sourceStore, rec.blobId.value) !in w.files then None
      else Some(w.files[File(t.sourceStore, rec.blobId.value)])
  }

  /** The manifest graph of one image in the source repository. */
  datatype Graph = Graph(w: World, t: Target, image: Option<string>, parse: Bytes -> Json) {
    function Read(d: Digest): (r: Option<Bytes>)
      ensures forall data :: Stored(d, data) <==> r == Some(data)
    {
      ReadManifest(w, t, Manifest(image, d))
    }

    /** The manifest's record is there, and these are the bytes behind it. */
    predicate Stored(d: Digest, data: Bytes) {
      var k := Key(t.sourceRepo, Manifest(image, d));
      && k in w.artifacts && w.artifacts[k].blobId.Some?
      && var f := File(t.sourceStore, w.artifacts[k].blobId.value);
         f in w.files && w.files[f] == data
    }

    ghost predicate Readable(d: Digest) {
      exists data :: Stored(d, data)
    }

    ghost predicate Lists(d: Digest, c: Digest) {
      exists data :: Stored(d, data) && ListsChild(parse(data), c)
    }

    ghost predicate Names(d: Digest, b: Digest) {
      exists data :: Stored(d, data) && NamesBlob(parse(data), b)
    }

    /** The digests that have a manifest record at all; finite, so the walk ends. */
    function Universe(): set<Digest> {
      set k | k in w.artifacts && k.repo == t.sourceRepo && k.path.Manifest? && k.path.image == image :: k.path.digest
    }
  }

  ghost predicate IsPath(g: Graph, root: Digest, p: seq<Digest>) {
    && p != [] && p[0] == root
    && forall i :: 0 <= i < |p| - 1 ==> g.Lists(p[i], p[i + 1])
  }

  ghost predicate PathTo(g: Graph, root: Digest, d: Digest, p: seq<Digest>) {
    IsPath(g, root, p) && p[|p| - 1] == d
  }

  ghost predicate Reachable(g: Graph, root: Digest, d: Digest) {
    exists p :: PathTo(g, root, d, p)
  }

  lemma ReachRoot(g: Graph, root: Digest)
    ensures Reachable(g, root, root)
  {
    assert PathTo(g, root, root, [root]);
  }

  lemma ReachChild(g: Graph, root: Digest, d: Digest, c: Digest)
    requires Reachable(g, root, d) && g.Lists(d, c)
    ensures Reachable(g, root, c)
  {
    hide Graph.Lists;
    var p :| PathTo(g, root, d, p);
    var q := p + [c];
    forall i | 0 <= i < |q| - 1
      ensures g.Lists(q[i], q[i + 1])
    {
      assert i < |p| - 1 ==> q[i + 1] == p[i + 1];
    }
    assert PathTo(g, root, c, q);
  }

  /** A set with the root in it and closed under children has everything reachable. */
  lemma {:induction false} ClosedHasPath(g: Graph, root: Digest, seen: set<Digest>, p: seq<Digest>)
    requires root in seen && forall d, c :: d in seen && g.Lists(d, c) ==> c in seen
    requires IsPath(g, root, p)
    ensures p[|p| - 1] in seen
    decreases |p|
  {
    if |p| > 1 {
      var q := p[..|p| - 1];
      assert forall i :: 0 <= i < |q| ==> q[i] == p[i];
      ClosedHasPath(g, root, seen, q);
    }
  }

  /** What the walk has established when its stack is `stack`. */
  ghost predicate Walked(g: Graph, root: Digest, seen: set<Digest>, stack: seq<Digest>,
                         manifests: seq<Digest>, blobs: set<Digest>) {
    Visited(g, root, seen, stack) && Gathered(g, seen, manifests, blobs)
  }

  ghost predicate Visited(g: Graph, root: Digest, seen: set<Digest>, stack: seq<Digest>) {
    && (root in seen || root in stack)
    && (forall d :: d in seen || d in stack ==> Reachable(g, root, d))
    && (forall d :: d in seen ==> g.Readable(d))
    && (forall d, c :: d in seen && g.Lists(d, c) ==> c in seen || c in stack)
  }

  ghost predicate Gathered(g: Graph, seen: set<Digest>, manifests: seq<Digest>, blobs: set<Digest>) {
    && (forall d :: d in manifests <==> d in seen)
    && (forall i, j :: 0 <= i < j < |manifests| ==> manifests[i] != manifests[j])
    && (forall b :: b in blobs <==> exists d :: d in seen && g.Names(d, b))
  }

  /** The depth-first walk. It ends on every graph, cyclic or not; it succeeds exactly when
      every reachable manifest can be read, and then returns exactly those, each once, and
      exactly the blobs they name. */
  method WalkClosure(g: Graph, root: Digest) returns (ok: bool, manifests: seq<Digest>, blobs: set<Digest>)
    ensures ok <==> forall d :: Reachable(g, root, d) ==> g.Readable(d)
    ensures ok ==> forall d :: d in manifests <==> Reachable(g, root, d)
    ensures ok ==> forall i, j :: 0 <= i < j < |manifests| ==> manifests[i] != manifests[j]
    ensures ok ==> forall b :: b in blobs <==> exists d :: Reachable(g, root, d) && g.Names(d, b)
  {
    var seen: set<Digest> := {};
    var stack := [root];
    manifests, blobs := [], {};
    hide Reachable, Walked, ClassifyManifest, Graph.Read, Graph.Readable, Graph.Lists, Graph.Names;
    WalkStart(g, root);
    while stack != []
      invariant Walked(g, root, seen, stack, manifests, blobs)
      invariant seen <= g.Universe()
      decreases |g.Universe() - seen|, |stack|
    {
      var digest := stack[|stack| - 1];
      ghost var under := stack[..|stack| - 1];
      assert stack == under + [digest];
      stack := stack[..|stack| - 1];
      if digest in seen {
        WalkAgain(g, root, seen, under, manifests, blobs, digest);
        continue;
      }
      ReadIffStored(g, digest);
      if g.Read(digest).None? {
        WalkTop(g, root, seen, under, manifests, blobs, digest);
        return false, [], {};
      }
      InUniverse(g, digest);
      var (children, named) := ClassifyManifest(g.parse(g.Read(digest).value));
      WalkStep(g, root, seen, under, manifests, blobs, digest, children, named);
      SmallerRest(g.Universe(), seen, digest);
      seen, stack := seen + {digest}, stack + children;
      manifests, blobs := manifests + [digest], blobs + (set b | b in named);
    }
    WalkDone(g, root, seen, manifests, blobs);
    ok := true;
  }

  lemma ReadIffStored(g: Graph, d: Digest)
    ensures g.Read(d).Some? <==> g.Readable(d)
  {
    assert g.Read(d).Some? ==> g.Stored(d, g.Read(d).value);
  }

  lemma WalkStart(g: Graph, root: Digest)
    ensures Walked(g, root, {}, [root], [], {})
  {
    ReachRoot(g, root);
  }

  lemma WalkTop(g: Graph, root: Digest, seen: set<Digest>, stack: seq<Digest>,
                manifests: seq<Digest>, blobs: set<Digest>, digest: Digest)
    requires Walked(g, root, seen, stack + [digest], manifests, blobs)
    ensures Reachable(g, root, digest)
  {
    assert digest in stack + [digest];
  }

  lemma WalkAgain(g: Graph, root: Digest, seen: set<Digest>, stack: seq<Digest>,
                  manifests: seq<Digest>, blobs: set<Digest>, digest: Digest)
    requires Walked(g, root, seen, stack + [digest], manifests, blobs) && digest in seen
    ensures Walked(g, root, seen, stack, manifests, blobs)
  {
    assert forall d :: d in stack + [digest] <==> d in stack || d == digest;
  }

  lemma InUniverse(g: Graph, d: Digest)
    requires g.Readable(d)
    ensures d in g.Universe()
  {
    assert Key(g.t.sourceRepo, Manifest(g.image, d)).path.digest in g.Universe();
  }

  lemma SmallerRest(universe: set<Digest>, seen: set<Digest>, d: Digest)
    requires d in universe && d !in seen
    ensures |universe - (seen + {d})| < |universe - seen|
  {
    assert universe - (seen + {d}) == (universe - seen) - {d};
  }

  lemma WalkStep(g: Graph, root: Digest, seen: set<Digest>, stack: seq<Digest>,
                 manifests: seq<Digest>, blobs: set<Digest>, digest: Digest, children: seq<Digest>, named: seq<Digest>)
    requires Walked(g, root, seen, stack + [digest], manifests, blobs)
    requires digest !in seen && g.Read(digest).Some?
    requires (children, named) == ClassifyManifest(g.parse(g.Read(digest).value))
    ensures Walked(g, root, seen + {digest}, stack + children, manifests + [digest], blobs + set b | b in named)
  {
    assert g.Stored(digest, g.Read(digest).value);
    VisitNext(g, root, seen, stack, digest, children);
    GatherNext(g, seen, manifests, blobs, digest, named);
  }

  lemma VisitNext(g: Graph, root: Digest, seen: set<Digest>, stack: seq<Digest>, digest: Digest, children: seq<Digest>)
    requires Visited(g, root, seen, stack + [digest]) && g.Readable(digest)
    requires forall c :: c in children <==> g.Lists(digest, c)
    ensures Visited(g, root, seen + {digest}, stack + children)
  {
    hide Graph.Lists, Graph.Readable, Reachable;
    var before := stack + [digest];
    var after := stack + children;
    assert digest in before && Reachable(g, root, digest);
    assert forall d :: d in before <==> d in stack || d == digest;
    assert forall d :: d in after <==> d in stack || d in children;
    forall c | c in children
      ensures Reachable(g, root, c)
    {
      ReachChild(g, root, digest, c);
    }
  }

  lemma GatherNext(g: Graph, seen: set<Digest>, manifests: seq<Digest>, blobs: set<Digest>, digest: Digest,
                   named: seq<Digest>)
    requires Gathered(g, seen, manifests, blobs) && digest !in seen
    requires forall b :: b in named <==> g.Names(digest, b)
    ensures Gathered(g, seen + {digest}, manifests + [digest], blobs + set b | b in named)
  {
    hide Graph.Names;
  }

  lemma WalkDone(g: Graph, root: Digest, seen: set<Digest>, manifests: seq<Digest>, blobs: set<Digest>)
    requires Walked(g, root, seen, [], manifests, blobs)
    ensures forall d :: d in seen <==> Reachable(g, root, d)
    ensures forall d :: Reachable(g, root, d) ==> g.Readable(d)
    ensures forall d :: d in manifests <==> Reachable(g, root, d)
    ensures forall i, j :: 0 <= i < j < |manifests| ==> manifests[i] != manifests[j]
    ensures forall b :: b in blobs <==> exists d :: Reachable(g, root, d) && g.Names(d, b)
  {
    forall d | Reachable(g, root, d)
      ensures d in seen
    {
      var p :| PathTo(g, root, d, p);
      ClosedHasPath(g, root, seen, p);
    }
  }

  // --- Copying records ---

  /** The ids in use are below the next fresh one. */
  ghost predicate IdsUsed(w: World) {
    (forall f :: f in w.files ==> f.id < w.nextId) && forall c :: c in w.claims ==> w.claims[c] < w.nextId
  }

  /** Claims point at stored files of their hash; a source record's hash is its content's. */
  ghost predicate Sound(w: World, t: Target) {
    && IdsUsed(w)
    && (forall c :: c in w.claims ==>
          var f := File(c.store, w.claims[c]); f in w.files && Blake3(w.files[f]) == c.hash)
    && (forall p :: t.From(p) in w.artifacts ==> TrueHash(w, t, w.artifacts[t.From(p)]))
  }

  ghost predicate TrueHash(w: World, t: Target, r: Record) {
    r.blobId.Some? && r.contentHash.Some? && File(t.sourceStore, r.blobId.value) in w.files
    ==> Blake3(w.files[File(t.sourceStore, r.blobId.value)]) == r.contentHash.value
  }

  /** No file of the old world is gone or changed. */
  ghost predicate FilesKept(w: World, w': World) {
    forall f :: f in w.files ==> f in w'.files && w'.files[f] == w.files[f]
  }

  /** `w'` holds at the destination what `w` holds at the source under `p`: the same record
      but for the blob id, and behind it the same bytes. */
  ghost predicate Copied(w: World, w': World, t: Target, p: Path) {
    && t.From(p) in w.artifacts && t.To(p) in w'.artifacts
    && var s := w.artifacts[t.From(p)];
       var d := w'.artifacts[t.To(p)];
       && d == s.(blobId := d.blobId)
       && (s.blobId.None? || t.SameStore() ==> d == s)
       && (s.blobId.Some? && File(t.sourceStore, s.blobId.value) in w.files ==>
             && d.blobId.Some? && File(t.destStore, d.blobId.value) in w'.files
             && w'.files[File(t.destStore, d.blobId.value)] == w.files[File(t.sourceStore, s.blobId.value)])
  }

  /** Every one of these paths that the source has is copied. */
  ghost predicate AllCopied(w: World, w': World, t: Target, paths: set<Path>) {
    forall p :: p in paths && t.From(p) in w.artifacts ==> Copied(w, w', t, p)
  }

  /** Outside these destination paths, and where the source has nothing, no artifact moved. */
  ghost predicate OnlyThese(w: World, w': World, t: Target, paths: set<Path>) {
    forall k :: (k in w.artifacts || k in w'.artifacts)
                && !(k.repo == t.destRepo && k.path in paths && t.From(k.path) in w.artifacts)
                ==> k in w.artifacts && k in w'.artifacts && w'.artifacts[k] == w.artifacts[k]
  }

  /** The source repository reads as it did. */
  ghost predicate SourceKept(w: World, w': World, t: Target) {
    forall p :: (t.From(p) in w.artifacts <==> t.From(p) in w'.artifacts)
                && (t.From(p) in w.artifacts ==> w'.artifacts[t.From(p)] == w.artifacts[t.From(p)])
  }

  /** No file appears or goes but in the destination store. */
  ghost predicate OnlyStore(store: Store, w: World, w': World) {
    forall f: File :: f.store != store ==> (f in w.files <==> f in w'.files)
  }

  // --- What a copy takes ---

  /** A copy to another store needs the file the record names. */
  predicate FileMissing(w: World, t: Target, rec: Record) {
    !t.SameStore() && rec.blobId.Some? && File(t.sourceStore, rec.blobId.value) !in w.files
  }

  /** How many requests it takes to copy the record under `p`: one to write it, and before that,
      for a blob that changes stores, one to upload it and one to claim its hash. */
  function CopyCost(w: World, t: Target, p: Path): nat {
    if t.From(p) !in w.artifacts then 0
    else if t.SameStore() || w.artifacts[t.From(p)].blobId.None? then 1
    else 3
  }

  function Count(p: Path, n: nat): int {
    n
  }

  function Costs(w: World, t: Target, paths: set<Path>): map<Path, nat> {
    map p | p in paths :: CopyCost(w, t, p)
  }

  ghost function CopyCosts(w: World, t: Target, paths: set<Path>): nat {
    SumPart<Path, nat>(map[], Costs(w, t, paths), Count);
    Sum(Costs(w, t, paths), Count)
  }

  ghost predicate NoneMissing(w: World, t: Target, paths: set<Path>) {
    forall p :: p in paths && t.From(p) in w.artifacts ==> !FileMissing(w, t, w.artifacts[t.From(p)])
  }

  /** The copy of these records went through, with request `next` the next to make. */
  ghost predicate Steady(outage: nat -> bool, first: nat, w: World, t: Target, paths: set<Path>, next: nat) {
    Ran(outage, first, CopyCosts(w, t, paths), true, next) && NoneMissing(w, t, paths)
  }

  /** It did not: a file is missing, or a request failed. */
  ghost predicate Broke(outage: nat -> bool, first: nat, w: World, t: Target, paths: set<Path>, e: Error, next: nat) {
    || (e == DataIntegrity && !NoneMissing(w, t, paths))
    || (e == Io && Ran(outage, first, CopyCosts(w, t, paths), false, next))
  }

  lemma SteadyFirst(outage: nat -> bool, first: nat, w: World, t: Target)
    ensures Steady(outage, first, w, t, {}, first)
  {
    assert Costs(w, t, {}) == map[];
  }

  /** One more record's turn. */
  lemma SteadyNext(outage: nat -> bool, first: nat, w: World, t: Target, paths: set<Path>, all: set<Path>, p: Path,
                   mid: nat, ok: bool, next: nat)
    requires Steady(outage, first, w, t, paths, mid) && p !in paths && paths + {p} <= all
    requires t.From(p) in w.artifacts ==> !FileMissing(w, t, w.artifacts[t.From(p)])
    requires Ran(outage, mid, CopyCost(w, t, p), ok, next)
    ensures if ok then Steady(outage, first, w, t, paths + {p}, next)
            else Broke(outage, first, w, t, all, Io, next)
  {
    hide Ran, CopyCost, FileMissing;
    var before, after := Costs(w, t, paths), Costs(w, t, paths + {p});
    assert after == before[p := CopyCost(w, t, p)];
    SumPut<Path, nat>(before, Count, p, CopyCost(w, t, p));
    SumPart<Path, nat>(after, Costs(w, t, all), Count);
    RanOn(outage, first, CopyCosts(w, t, paths), mid, CopyCost(w, t, p), ok, next);
    if !ok {
      RanShort(outage, first, CopyCosts(w, t, paths + {p}), CopyCosts(w, t, all), next);
    }
  }

  /** The same, for what copying that record returned. */
  lemma OneTurn(outage: nat -> bool, first: nat, w: World, t: Target, paths: set<Path>, all: set<Path>, p: Path,
                mid: nat, one: Result<nat>, next: nat)
    requires Steady(outage, first, w, t, paths, mid) && p !in paths && paths + {p} <= all
    requires if t.From(p) in w.artifacts && FileMissing(w, t, w.artifacts[t.From(p)]) then one == Err(DataIntegrity)
             else Ran(outage, mid, CopyCost(w, t, p), one.Ok?, next) && (one.Err? ==> one.error == Io)
    ensures if one.Ok? then Steady(outage, first, w, t, paths + {p}, next)
            else Broke(outage, first, w, t, all, one.error, next)
  {
    if t.From(p) in w.artifacts && FileMissing(w, t, w.artifacts[t.From(p)]) {
      assert !NoneMissing(w, t, all);
    } else {
      SteadyNext(outage, first, w, t, paths, all, p, mid, one.Ok?, next);
    }
  }

  /** How far a run of record copies has come from `w`. */
  ghost predicate Progress(w: World, w': World, t: Target, paths: set<Path>) {
    && Sound(w', t) && FilesKept(w, w') && OnlyStore(t.destStore, w, w') && SourceKept(w, w', t)
    && AllCopied(w, w', t, paths) && OnlyThese(w, w', t, paths)
  }

  function HashOf(w: World, t: Target, rec: Record): Hash
    requires rec.blobId.Some? && File(t.sourceStore, rec.blobId.value) in w.files
  {
    if rec.contentHash.Some? then rec.contentHash.value else Blake3(w.files[File(t.sourceStore, rec.blobId.value)])
  }

  /** The destination's claim on the record's hash names a file that is not there or is another. */
  predicate Dangles(w: World, t: Target, rec: Record)
    requires rec.blobId.Some? && File(t.sourceStore, rec.blobId.value) in w.files
  {
    var c := Claim(t.destStore, HashOf(w, t, rec));
    c in w.claims && !HasBytes(w, File(t.destStore, w.claims[c]), w.files[File(t.sourceStore, rec.blobId.value)])
  }

  predicate HasBytes(w: World, f: File, data: Bytes) {
    f in w.files && w.files[f] == data
  }

  /** What an upload and a claim leave sound. */
  lemma UploadSound(w: World, t: Target, rec: Record, up: World)
    requires IdsUsed(w) && !t.SameStore() && rec.blobId.Some? && File(t.sourceStore, rec.blobId.value) in w.files
    requires up == w || up == w.(files := w.files[File(t.destStore, w.nextId) := w.files[File(t.sourceStore, rec.blobId.value)]],
                                 nextId := w.nextId + 1)
    ensures Sound(w, t) && TrueHash(w, t, rec) ==>
              var c := Claim(t.destStore, HashOf(w, t, rec));
              && Sound(up, t)
              && (up != w && c !in w.claims ==> Sound(up.(claims := up.claims[c := w.nextId]), t))
              && (up != w ==> Sound(up.(files := up.files - {File(t.destStore, w.nextId)}), t))
  {
  }

  class Depot {
    var w: World
    ghost var trace: seq<World>
    const outage: nat -> bool
    var requests: nat

    constructor (w: World, outage: nat -> bool)
      ensures this.w == w && this.outage == outage && requests == 0 && trace == []
    {
      this.w, this.outage, requests, trace := w, outage, 0, [];
    }

    /** A write whose request fails changes nothing. */
    method Write(next: World) returns (ok: bool)
      modifies this
      ensures ok == !outage(old(requests)) && requests == old(requests) + 1
      ensures w == if ok then next else old(w)
      ensures trace == old(trace) + if ok then [next] else []
    {
      ok, requests := !outage(requests), requests + 1;
      if ok {
        w, trace := next, trace + [next];
      }
    }

    /** `put_dedup_record` for one caller: claims the hash or returns the winner's id. */
    method PutDedupRecord(c: Claim, id: BlobId) returns (r: Result<Option<BlobId>>)
      modifies this
      ensures r.Ok? == !outage(old(requests)) && requests == old(requests) + 1 && (r.Err? ==> r.error == Io)
      ensures r.Ok? ==> r.value == (if c in old(w).claims then Some(old(w).claims[c]) else None)
      ensures w == if r.Ok? && c !in old(w).claims then old(w).(claims := old(w).claims[c := id]) else old(w)
      ensures trace == old(trace) + if r.Ok? && c !in old(w).claims then [w] else []
    {
      requests := requests + 1;
      if outage(requests - 1) {
        return Err(Io);
      }
      if c in w.claims {
        return Ok(Some(w.claims[c]));
      }
      w := w.(claims := w.claims[c := id]);
      trace := trace + [w];
      r := Ok(None);
    }

    /** The caller goes on whether or not this deletion succeeds. */
    method TryDelete(f: File)
      modifies this`w, this`trace
      ensures (w == old(w) && trace == old(trace))
           || (w == old(w).(files := old(w).files - {f}) && trace == old(trace) + [w])
    {
      var ok: bool := *;
      if ok {
        w := w.(files := w.files - {f});
        trace := trace + [w];
      }
    }

    /** Streams a record's bytes into the destination store and re-points the record. It succeeds
        exactly when the file is there and neither the upload nor the claim fails. The record then
        has the same bytes behind it, exactly unless the hash was claimed by a file without them. */
    method RehomeBlob(t: Target, rec: Record) returns (r: Result<Record>)
      requires IdsUsed(w) && !t.SameStore()
      modifies this
      ensures FilesKept(old(w), w) && OnlyStore(t.destStore, old(w), w) && w.artifacts == old(w).artifacts
      ensures |trace| >= |old(trace)| && trace[..|old(trace)|] == old(trace)
      ensures forall i :: |old(trace)| <= i < |trace| ==> trace[i].artifacts == old(w).artifacts && FilesKept(old(w), trace[i])
      ensures rec.blobId.None? ==> r == Ok(rec) && w == old(w) && requests == old(requests)
      ensures FileMissing(old(w), t, rec) ==> r == Err(DataIntegrity) && w == old(w) && requests == old(requests)
      ensures rec.blobId.Some? && !FileMissing(old(w), t, rec) ==>
                Ran(outage, old(requests), 2, r.Ok?, requests) && (r.Err? ==> r.error == Io)
      ensures r.Ok? ==> r.value == rec.(blobId := r.value.blobId)
      ensures r.Ok? && rec.blobId.Some? ==>
                && r.value.blobId.Some?
                && (HasBytes(w, File(t.destStore, r.value.blobId.value), old(w).files[File(t.sourceStore, rec.blobId.value)])
                    <==> !Dangles(old(w), t, rec))
      ensures IdsUsed(w) && (Sound(old(w), t) && TrueHash(old(w), t, rec) ==> Sound(w, t))
    {
      hide Sound, TrueHash;
      if rec.blobId.None? {
        return Ok(rec);
      }
      var from := File(t.sourceStore, rec.blobId.value);
      if from !in w.files {
        return Err(DataIntegrity);
      }
      ghost var before := w;
      var data := w.files[from];
      var c := Claim(t.destStore, HashOf(w, t, rec));
      var id := w.nextId;
      var uploaded := File(t.destStore, id);
      var ok := Write(w.(files := w.files[uploaded := data], nextId := id + 1));
      UploadSound(before, t, rec, w);
      if !ok {
        return Err(Io);
      }
      var existing := PutDedupRecord(c, id);
      if existing.Err? {
        return Err(Io);
      }
      if existing.value.None? {
        return Ok(rec.(blobId := Some(id)));
      }
      TryDelete(uploaded);
      r := Ok(rec.(blobId := existing.value));
    }

    /** Copies one record, if the source has it: unless its file is missing, exactly when none of
        the requests it takes fails. */
    method CopyRecord(t: Target, p: Path, ghost w0: World, ghost paths: set<Path>) returns (r: Result<nat>)
      requires t.Sensible() && Sound(w0, t) && Progress(w0, w, t, paths)
      modifies this
      ensures Sound(w, t) && FilesKept(old(w), w)
      ensures |trace| >= |old(trace)| && trace[..|old(trace)|] == old(trace)
      ensures forall i :: |old(trace)| <= i < |trace| ==> trace[i].artifacts == old(w).artifacts || (r.Ok? && trace[i] == w)
      ensures forall i :: |old(trace)| <= i < |trace| ==> FilesKept(old(w), trace[i])
      ensures if t.From(p) in w0.artifacts && FileMissing(w0, t, w0.artifacts[t.From(p)])
              then r == Err(DataIntegrity)
              else Ran(outage, old(requests), CopyCost(w0, t, p), r.Ok?, requests) && (r.Err? ==> r.error == Io)
      ensures r.Err? ==> w.artifacts == old(w).artifacts
      ensures r.Ok? ==> Progress(w0, w, t, paths + {p})
      ensures r.Ok? ==> r.value == if t.From(p) in w0.artifacts then 1 else 0
      ensures r.Ok? ==> SameBut(old(w), w, t.To(p))
    {
      hide Sound, Ran, Dangles, Progress, FilesKept, OnlyStore, TrueHash, IdsUsed, SameBut;
      SameSource(w0, w, t, paths, p);
      NoRequest(outage, requests);
      NothingCopied(w, t);
      if t.From(p) !in w.artifacts {
        SkipKeeps(w0, w, t, paths, p);
        return Ok(0);
      }
      var rec := w.artifacts[t.From(p)];
      ghost var before, first := w, requests;
      ghost var cost := if t.SameStore() || rec.blobId.None? then 0 else 2;
      if !t.SameStore() {
        var rehomed := RehomeBlob(t, rec);
        if rehomed.Err? {
          if !FileMissing(before, t, rec) {
            RanShort(outage, first, 2, 3, requests);
          }
          return Err(rehomed.error);
        }
        rec := rehomed.value;
      }
      ghost var mid, second := w, requests;
      var ok := Write(w.(artifacts := w.artifacts[t.To(p) := rec]));
      OneRequest(outage, second);
      RanOn(outage, first, cost, second, 1, ok, requests);
      if !ok {
        return Err(Io);
      }
      CopyKeeps(w0, before, mid, w, t, paths, p, rec);
      r := Ok(1);
    }

    /** Removes only the tag; what it pointed at is left to garbage collection. */
    method DeleteTag(key: Key) returns (r: Result<bool>)
      modifies this
      ensures if r.Ok? then r.value == (key in old(w).artifacts) else r.error == Io
      ensures Ran(outage, old(requests), if key in old(w).artifacts then 1 else 0, r.Ok?, requests)
      ensures w == if r.Ok? then old(w).(artifacts := old(w).artifacts - {key}) else old(w)
      ensures trace == old(trace) + if r.Ok? && r.value then [w] else []
    {
      if key !in w.artifacts {
        assert w.artifacts - {key} == w.artifacts;
        return Ok(false);
      }
      OneRequest(outage, requests);
      var ok := Write(w.(artifacts := w.artifacts - {key}));
      r := if ok then Ok(true) else Err(Io);
    }

    /** Copies a list of records, none of them the tag, counting those the source has. */
    method CopyAll(t: Target, todo: seq<Path>, key: Path, ghost w0: World, ghost done: set<Path>, ghost all: set<Path>,
                   ghost first: nat)
      returns (r: Result<nat>, ghost after: set<Path>)
      requires t.Sensible() && Sound(w0, t) && Progress(w0, w, t, done) && Partial(w0, w, t, key, all)
      requires ToDo(todo, key, done, all) && Steady(outage, first, w0, t, done, requests)
      modifies this
      ensures |trace| >= |old(trace)| && trace[..|old(trace)|] == old(trace)
      ensures Partial(w0, w, t, key, all) && forall i :: |old(trace)| <= i < |trace| ==> Partial(w0, trace[i], t, key, all)
      ensures r.Ok? ==> Progress(w0, w, t, after) && forall p :: p in after <==> p in done || p in todo
      ensures r.Ok? ==> r.value == Held(w0, t, after) - Held(w0, t, done) && Steady(outage, first, w0, t, after, requests)
      ensures r.Err? ==> Broke(outage, first, w0, t, all, r.error, requests)
    {
      hide Progress, Sound, FilesKept, Held, Partial, SameBut, Steady, Broke, Ran, FileMissing, CopyCost;
      var copied: nat := 0;
      after := done;
      for i := 0 to |todo|
        invariant |trace| >= |old(trace)| && trace[..|old(trace)|] == old(trace)
        invariant Partial(w0, w, t, key, all) && forall j :: |old(trace)| <= j < |trace| ==> Partial(w0, trace[j], t, key, all)
        invariant Progress(w0, w, t, after) && forall p :: p in after <==> p in done || p in todo[..i]
        invariant copied == Held(w0, t, after) - Held(w0, t, done)
        invariant Steady(outage, first, w0, t, after, requests) && after <= all
      {
        ghost var before, mid := w, requests;
        var one := CopyRecord(t, todo[i], w0, after);
        assert todo[i] in todo;
        PartialStays(w0, before, t, key, all);
        OneTurn(outage, first, w0, t, after, all, todo[i], mid, one, requests);
        if one.Err? {
          return Err(one.error), after;
        }
        assert todo[..i + 1] == todo[..i] + [todo[i]];
        HeldNext(w0, t, after, todo[i]);
        after := after + {todo[i]};
        PartialGrows(w0, before, w, t, key, after, all, todo[i]);
        copied := copied + one.value;
      }
      assert todo[..|todo|] == todo;
      r := Ok(copied);
    }

    /** Blobs first, then manifests. */
    method CopyParts(t: Target, blobPaths: seq<Path>, manifestPaths: seq<Path>, key: Path, ghost all: set<Path>)
      returns (r: Result<nat>, ghost done: set<Path>)
      requires t.Sensible() && Sound(w, t) && Partial(w, w, t, key, all) && ToDo(blobPaths, key, {}, all)
      requires ToDoNext(blobPaths, manifestPaths, key, all)
      modifies this
      ensures |trace| >= |old(trace)| && trace[..|old(trace)|] == old(trace)
      ensures Partial(old(w), w, t, key, all)
      ensures forall i :: |old(trace)| <= i < |trace| ==> Partial(old(w), trace[i], t, key, all)
      ensures r.Ok? ==> Progress(old(w), w, t, done) && forall p :: p in done <==> p in blobPaths || p in manifestPaths
      ensures r.Ok? ==> r.value == Held(old(w), t, done) && Steady(outage, old(requests), old(w), t, done, requests)
      ensures r.Err? ==> Broke(outage, old(requests), old(w), t, all, r.error, requests)
    {
      hide Progress, Sound, Held, Partial, ToDo, Steady, Broke;
      ghost var w0, first := w, requests;
      StartProgress(w, t, key);
      SteadyFirst(outage, first, w0, t);
      r, done := CopyAll(t, blobPaths, key, w0, {}, all, first);
      if r.Ok? {
        var copied := r.value;
        r, done := CopyAll(t, manifestPaths, key, w0, done, all, first);
        r := if r.Ok? then Ok(copied + r.value) else r;
      }
    }

    /** Blobs and manifests first, so that the destination is a complete image, the tag last. */
    method CopyClosure(g: Graph, key: Path, root: Digest, manifests: seq<Digest>, blobs: set<Digest>)
      returns (r: Result<nat>, ghost all: set<Path>)
      requires g.w == w && g.t.Sensible() && Sound(w, g.t) && key.TagPath? && TagIs(g, key, root)
      requires IsWalk(g, root, manifests, blobs)
      modifies this
      ensures |trace| >= |old(trace)| && trace[..|old(trace)|] == old(trace)
      ensures Safe(g, key, w) && forall i :: |old(trace)| <= i < |trace| ==> Safe(g, key, trace[i])
      ensures r.Ok? ==> CopyDone(g, key, root, r.value, w)
      ensures Closure(g, key, root, all)
      ensures r.Ok? ==> Steady(outage, old(requests), g.w, g.t, all, requests)
      ensures r.Err? ==> Broke(outage, old(requests), g.w, g.t, all, r.error, requests)
    {
      hide Progress, Sound, FilesKept, Held, Safe, Partial, Closure, SameBut, Reachable, CopyDone, Graph.Names,
           Steady, Broke, Ran, FileMissing, CopyCost, HasTag, TagIs, ToDo, ToDoNext, IsWalk;
      ghost var w0 := w;
      var t := g.t;
      var blobPaths, manifestPaths;
      blobPaths, manifestPaths, all := ListPaths(g, key, root, manifests, blobs);
      PartialIsSafe(g, key, root, all);
      StartPartial(w, t, key, all);
      ghost var start, done := requests, {};
      r, done := CopyParts(t, blobPaths, manifestPaths, key, all);
      if r.Err? {
        return r, all;
      }
      ghost var before, mid := w, requests;
      AllListed(blobPaths, manifestPaths, key, done, all);
      var last := CopyRecord(t, key, w0, done);
      PartialStays(w0, before, t, key, all);
      OneTurn(outage, start, w0, t, done, all, key, mid, last, requests);
      if last.Err? {
        return last, all;
      }
      HeldNext(w0, t, done, key);
      CompleteIsSafe(g, key, root, w, all);
      r := Ok(r.value + last.value);
      CompleteIsDone(g, key, root, manifests, blobs, w, all, r.value);
    }

    /** `copy_tag`: resolve the tag, refuse a collision, walk, copy, and for a move delete
        the source tag. */
    method CopyTag(t: Target, image: Option<string>, tag: string, deleteSource: bool, overwrite: bool, parse: Bytes -> Json)
      returns (r: Result<(Digest, nat)>, ghost copied: World, ghost closure: set<Path>)
      requires t.Sensible() && Sound(w, t)
      modifies this
      ensures var key := TagPath(image, tag);
              && (r == Err(NotFound) <==> t.From(key) !in old(w).artifacts)
              && (r == Err(Conflict) <==> HasTag(old(w), t, key) && !overwrite && t.To(key) in old(w).artifacts)
              && (r == Err(NotFound) || r == Err(Conflict) ==> w == old(w) && trace == old(trace))
      ensures var g, key := Graph(old(w), t, image, parse), TagPath(image, tag);
              t.From(key) in old(w).artifacts && r != Err(Conflict) && !Copyable(g, key)
              ==> r == Err(DataIntegrity) && w == old(w) && trace == old(trace)
      ensures var g, key := Graph(old(w), t, image, parse), TagPath(image, tag);
              Copyable(g, key) && r != Err(Conflict)
              ==> && ClosureOf(g, key, closure)
                  && var after := old(requests) + CopyCosts(old(w), t, closure) + if deleteSource then 1 else 0;
                     && (r.Ok? <==> NoneMissing(old(w), t, closure) && Quiet(outage, old(requests), after))
                     && (r == Err(DataIntegrity) ==> !NoneMissing(old(w), t, closure))
                     && (r == Err(Io) ==> !Quiet(outage, old(requests), after))
      ensures r.Ok? ==>
                var key := TagPath(image, tag);
                && CopyDone(Graph(old(w), t, image, parse), key, r.value.0, r.value.1, copied)
                && w == (if deleteSource then copied.(artifacts := copied.artifacts - {t.From(key)}) else copied)
                && (t.To(key) in w.artifacts <==> !deleteSource || t.sourceRepo != t.destRepo)
      ensures t.sourceRepo != t.destRepo || !deleteSource ==>
                var g := Graph(old(w), t, image, parse);
                TagSafe(g, TagPath(image, tag), w)
                && forall i :: |old(trace)| <= i < |trace| ==> TagSafe(g, TagPath(image, tag), trace[i])
      ensures var g, key := Graph(old(w), t, image, parse), TagPath(image, tag);
              && (r.Err? ==> Confined(g, key, w))
              && forall i :: |old(trace)| <= i < |trace| ==>
                   Confined(g, key, trace[i]) || (r.Ok? && deleteSource && i == |trace| - 1 && trace[i] == w)
    {
      hide Progress, Sound, FilesKept, TagSafe, Confined, Reachable, CopyDone, Copied, SameAt, Closure, Graph.Names, Graph.Readable,
           Steady, Broke, Quiet, Ran, NoneMissing, CopyCosts;
      var g := Graph(w, t, image, parse);
      var key := TagPath(image, tag);
      copied, closure := w, {};
      UntouchedIsSafe(g, key);
      if t.From(key) !in w.artifacts {
        return Err(NotFound), w, {};
      }
      if !w.artifacts[t.From(key)].kind.DockerTag? {
        return Err(DataIntegrity), w, {};
      }
      var root := w.artifacts[t.From(key)].kind.digest;
      if !overwrite && t.To(key) in w.artifacts {
        return Err(Conflict), w, {};
      }
      var ok, manifests, blobs := WalkClosure(g, root);
      if !ok {
        return Err(DataIntegrity), w, {};
      }
      ghost var first := requests;
      var n;
      n, closure := CopyClosure(g, key, root, manifests, blobs);
      copied := w;
      if n.Err? {
        BrokeTells(outage, first, g.w, t, closure, n.error, requests, deleteSource);
        return Err(n.error), w, closure;
      }
      DoneHasTag(g, key, root, n.value, w);
      ghost var mid := requests;
      if deleteSource {
        SourceHasTag(g, key, w);
        var gone := DeleteTag(t.From(key));
        SteadyTells(outage, first, g.w, t, closure, mid, 1, gone.Ok?, requests);
        if gone.Err? {
          return Err(gone.error), copied, closure;
        }
        DeleteIsSafe(g, key, root, n.value, copied, w);
      } else {
        NoRequest(outage, mid);
        SteadyTells(outage, first, g.w, t, closure, mid, 0, true, mid);
      }
      r := Ok((root, n.value));
    }
  }

  ghost predicate SameAt(a: World, b: World, k: Key) {
    (k in a.artifacts <==> k in b.artifacts) && (k in a.artifacts ==> a.artifacts[k] == b.artifacts[k])
  }

  ghost predicate SameBut(a: World, b: World, k: Key) {
    forall j :: j != k ==> SameAt(a, b, j)
  }

  ghost predicate HasTag(w: World, t: Target, key: Path) {
    t.From(key) in w.artifacts && w.artifacts[t.From(key)].kind.DockerTag?
  }

  ghost predicate TagIs(g: Graph, key: Path, root: Digest) {
    HasTag(g.w, g.t, key) && g.w.artifacts[g.t.From(key)].kind.digest == root
  }

  /** The tag is one, and every manifest it leads to can be read. */
  ghost predicate Copyable(g: Graph, key: Path) {
    HasTag(g.w, g.t, key)
    && forall d :: Reachable(g, g.w.artifacts[g.t.From(key)].kind.digest, d) ==> g.Readable(d)
  }

  ghost predicate ClosureOf(g: Graph, key: Path, paths: set<Path>) {
    HasTag(g.w, g.t, key) && Closure(g, key, g.w.artifacts[g.t.From(key)].kind.digest, paths)
  }

  lemma BrokeTells(outage: nat -> bool, first: nat, w: World, t: Target, all: set<Path>, e: Error, next: nat, more: bool)
    requires Broke(outage, first, w, t, all, e, next)
    ensures var after := first + CopyCosts(w, t, all) + if more then 1 else 0;
            && !(NoneMissing(w, t, all) && Quiet(outage, first, after))
            && (e == DataIntegrity ==> !NoneMissing(w, t, all))
            && (e == Io ==> !Quiet(outage, first, after)) && (e == DataIntegrity || e == Io)
  {
    hide CopyCosts, NoneMissing;
    var after := first + CopyCosts(w, t, all) + if more then 1 else 0;
    if e == Io {
      var r: nat :| first <= r < first + CopyCosts(w, t, all) && outage(r);
      assert first <= r < after;
    }
  }

  /** After the copy went through, with so many requests more to make. */
  lemma SteadyTells(outage: nat -> bool, first: nat, w: World, t: Target, all: set<Path>, mid: nat, more: nat, ok: bool, next: nat)
    requires Steady(outage, first, w, t, all, mid) && Ran(outage, mid, more, ok, next)
    ensures NoneMissing(w, t, all) && (ok <==> Quiet(outage, first, first + CopyCosts(w, t, all) + more))
  {
    hide CopyCosts, NoneMissing;
    RanOn(outage, first, CopyCosts(w, t, all), mid, more, ok, next);
  }

  lemma SourceHasTag(g: Graph, key: Path, s: World)
    requires HasTag(g.w, g.t, key) && Confined(g, key, s)
    ensures g.t.From(key) in s.artifacts
  {
  }

  /** The records the tag stands for: itself, the reachable manifests, the blobs they name. */
  ghost predicate InClosure(g: Graph, key: Path, root: Digest, p: Path) {
    match p
    case BlobRef(b) => exists d :: Reachable(g, root, d) && g.Names(d, b)
    case Manifest(image, d) => image == g.image && Reachable(g, root, d)
    case _ => p == key
  }

  ghost predicate Closure(g: Graph, key: Path, root: Digest, paths: set<Path>) {
    forall p :: p in paths <==> InClosure(g, key, root, p)
  }

  /** How many of these records the source has. */
  ghost function Held(w: World, t: Target, paths: set<Path>): nat {
    |set p | p in paths && t.From(p) in w.artifacts|
  }

  /** A finished copy: the whole closure as the source has it, counted, and nothing else. */
  ghost predicate CopyDone(g: Graph, key: Path, root: Digest, n: nat, c: World) {
    && TagIs(g, key, root) && (forall d :: Reachable(g, root, d) ==> g.Readable(d))
    && exists paths :: Closure(g, key, root, paths) && n == Held(g.w, g.t, paths)
                       && AllCopied(g.w, c, g.t, paths) && OnlyThese(g.w, c, g.t, paths)
  }

  /** The destination tag is as it was, or its whole closure has arrived. */
  ghost predicate TagSafe(g: Graph, key: Path, s: World) {
    SameAt(g.w, s, g.t.To(key))
    || exists root, paths :: TagIs(g, key, root) && Closure(g, key, root, paths) && AllCopied(g.w, s, g.t, paths)
  }

  /** Nothing but these records of the destination changed, and no file of before is gone. */
  ghost predicate Within(w: World, w': World, t: Target, paths: set<Path>) {
    SourceKept(w, w', t) && OnlyThese(w, w', t, paths) && FilesKept(w, w')
  }

  /** Nothing outside the destination's closure of the tag has changed. */
  ghost predicate Confined(g: Graph, key: Path, s: World) {
    s == g.w
    || exists root, paths :: TagIs(g, key, root) && Closure(g, key, root, paths) && Within(g.w, s, g.t, paths)
  }

  ghost predicate Safe(g: Graph, key: Path, s: World) {
    TagSafe(g, key, s) && Confined(g, key, s)
  }

  /** A copy under way: only records of the closure have come, and not yet the tag. */
  ghost predicate Partial(w: World, w': World, t: Target, key: Path, paths: set<Path>) {
    Within(w, w', t, paths) && SameAt(w, w', t.To(key))
  }

  lemma PartialStays(w0: World, before: World, t: Target, key: Path, all: set<Path>)
    requires Partial(w0, before, t, key, all)
    ensures forall s: World :: s.artifacts == before.artifacts && FilesKept(before, s) ==> Partial(w0, s, t, key, all)
  {
  }

  lemma PartialGrows(w0: World, before: World, s: World, t: Target, key: Path, paths: set<Path>, all: set<Path>, p: Path)
    requires Partial(w0, before, t, key, all) && p != key && SameBut(before, s, t.To(p))
    requires Progress(w0, s, t, paths) && paths <= all
    ensures Partial(w0, s, t, key, all)
  {
    assert SameAt(before, s, t.To(key));
  }

  lemma PartialIsSafe(g: Graph, key: Path, root: Digest, all: set<Path>)
    requires TagIs(g, key, root) && Closure(g, key, root, all)
    ensures forall s :: Partial(g.w, s, g.t, key, all) ==> Safe(g, key, s)
  {
  }

  lemma UntouchedIsSafe(g: Graph, key: Path)
    ensures TagSafe(g, key, g.w) && Confined(g, key, g.w)
  {
  }

  lemma StartPartial(w: World, t: Target, key: Path, all: set<Path>)
    ensures Partial(w, w, t, key, all)
  {
  }

  lemma StartProgress(w: World, t: Target, key: Path)
    requires Sound(w, t)
    ensures Progress(w, w, t, {}) && Held(w, t, {}) == 0
  {
    assert (set p | p in {} && t.From(p) in w.artifacts) == {};
  }

  lemma HeldNext(w: World, t: Target, paths: set<Path>, p: Path)
    requires p !in paths
    ensures Held(w, t, paths + {p}) == Held(w, t, paths) + if t.From(p) in w.artifacts then 1 else 0
  {
    var before := set q | q in paths && t.From(q) in w.artifacts;
    var after := set q | q in paths + {p} && t.From(q) in w.artifacts;
    assert after == before + if t.From(p) in w.artifacts then {p} else {};
  }

  method ListBlobs(blobs: set<Digest>) returns (paths: seq<Path>)
    ensures forall p :: p in paths <==> p.BlobRef? && p.digest in blobs
    ensures forall i, j :: 0 <= i < j < |paths| ==> paths[i] != paths[j]
  {
    paths := [];
    var left := blobs;
    while left != {}
      invariant left <= blobs
      invariant forall p :: p in paths <==> p.BlobRef? && p.digest in blobs && p.digest !in left
      invariant forall i, j :: 0 <= i < j < |paths| ==> paths[i] != paths[j]
      decreases left
    {
      var b :| b in left;
      paths, left := paths + [BlobRef(b)], left - {b};
    }
  }

  /** What is left to copy: other records than the tag and those done, each once. */
  ghost predicate ToDo(todo: seq<Path>, key: Path, done: set<Path>, all: set<Path>) {
    && key !in todo && (forall p :: p in todo ==> p !in done && p in all)
    && (forall i, j :: 0 <= i < j < |todo| ==> todo[i] != todo[j]) && done <= all
  }

  /** The manifests are left to copy when the blobs are done. */
  ghost predicate ToDoNext(blobPaths: seq<Path>, manifestPaths: seq<Path>, key: Path, all: set<Path>) {
    && (forall copied: set<Path> :: (forall p :: p in copied <==> p in {} || p in blobPaths)
                                    ==> ToDo(manifestPaths, key, copied, all))
    && (forall p :: p in all <==> p in blobPaths || p in manifestPaths || p == key)
    && key !in blobPaths && key !in manifestPaths
  }

  /** What a walk that succeeded returns. */
  ghost predicate IsWalk(g: Graph, root: Digest, manifests: seq<Digest>, blobs: set<Digest>) {
    && (forall d :: Reachable(g, root, d) ==> g.Readable(d))
    && (forall d :: d in manifests <==> Reachable(g, root, d))
    && (forall i, j :: 0 <= i < j < |manifests| ==> manifests[i] != manifests[j])
    && (forall b :: b in blobs <==> exists d :: Reachable(g, root, d) && g.Names(d, b))
  }

  /** The walk's digests as paths. */
  method ListPaths(g: Graph, key: Path, root: Digest, manifests: seq<Digest>, blobs: set<Digest>)
    returns (blobPaths: seq<Path>, manifestPaths: seq<Path>, ghost all: set<Path>)
    requires key.TagPath? && IsWalk(g, root, manifests, blobs)
    ensures Closure(g, key, root, all) && ToDo(blobPaths, key, {}, all) && ToDoNext(blobPaths, manifestPaths, key, all)
  {
    hide Reachable, Closure, Graph.Names, Graph.Readable;
    blobPaths := ListBlobs(blobs);
    manifestPaths := seq(|manifests|, i requires 0 <= i < |manifests| => Manifest(g.image, manifests[i]));
    all := (set p | p in blobPaths) + (set p | p in manifestPaths) + {key};
    ClosurePaths(g, key, root, manifests, blobs, blobPaths, manifestPaths, all);
  }

  lemma AllListed(blobPaths: seq<Path>, manifestPaths: seq<Path>, key: Path, done: set<Path>, all: set<Path>)
    requires ToDoNext(blobPaths, manifestPaths, key, all)
    requires forall p :: p in done <==> p in blobPaths || p in manifestPaths
    ensures done + {key} == all && key !in done
  {
  }

  lemma ClosurePaths(g: Graph, key: Path, root: Digest, manifests: seq<Digest>, blobs: set<Digest>,
                     blobPaths: seq<Path>, manifestPaths: seq<Path>, paths: set<Path>)
    requires key.TagPath?
    requires forall d :: d in manifests <==> Reachable(g, root, d)
    requires forall b :: b in blobs <==> exists d :: Reachable(g, root, d) && g.Names(d, b)
    requires forall p :: p in blobPaths <==> p.BlobRef? && p.digest in blobs
    requires |manifestPaths| == |manifests| && forall i :: 0 <= i < |manifests| ==> manifestPaths[i] == Manifest(g.image, manifests[i])
    requires forall p :: p in paths <==> p in blobPaths || p in manifestPaths || p == key
    ensures Closure(g, key, root, paths)
  {
    hide Reachable, Graph.Names;
    forall p
      ensures p in paths <==> InClosure(g, key, root, p)
    {
      if p.Manifest? && p.image == g.image && p.digest in manifests {
        var i :| 0 <= i < |manifests| && manifests[i] == p.digest;
        assert manifestPaths[i] == p;
      }
    }
  }

  lemma CompleteIsSafe(g: Graph, key: Path, root: Digest, s: World, paths: set<Path>)
    requires TagIs(g, key, root) && Closure(g, key, root, paths) && Progress(g.w, s, g.t, paths)
    ensures Safe(g, key, s)
  {
  }

  lemma CompleteIsDone(g: Graph, key: Path, root: Digest, manifests: seq<Digest>, blobs: set<Digest>,
                       s: World, paths: set<Path>, n: nat)
    requires TagIs(g, key, root) && Closure(g, key, root, paths) && Progress(g.w, s, g.t, paths)
    requires IsWalk(g, root, manifests, blobs)
    requires n == Held(g.w, g.t, paths)
    ensures CopyDone(g, key, root, n, s)
  {
  }

  lemma DoneHasTag(g: Graph, key: Path, root: Digest, n: nat, c: World)
    requires CopyDone(g, key, root, n, c) && key.TagPath?
    ensures g.t.To(key) in c.artifacts
  {
    var paths :| Closure(g, key, root, paths) && n == Held(g.w, g.t, paths)
                 && AllCopied(g.w, c, g.t, paths) && OnlyThese(g.w, c, g.t, paths);
    assert InClosure(g, key, root, key);
    assert Copied(g.w, c, g.t, key);
  }

  lemma DeleteIsSafe(g: Graph, key: Path, root: Digest, n: nat, c: World, w: World)
    requires CopyDone(g, key, root, n, c)
    requires w == c.(artifacts := c.artifacts - {g.t.From(key)})
    ensures g.t.sourceRepo != g.t.destRepo ==> TagSafe(g, key, w)
  {
    if g.t.sourceRepo != g.t.destRepo {
      var paths :| Closure(g, key, root, paths) && n == Held(g.w, g.t, paths)
                   && AllCopied(g.w, c, g.t, paths) && OnlyThese(g.w, c, g.t, paths);
      forall p | p in paths && g.t.From(p) in g.w.artifacts
        ensures Copied(g.w, w, g.t, p)
      {
        assert Copied(g.w, c, g.t, p);
      }
    }
  }

  lemma SameSource(w0: World, w: World, t: Target, paths: set<Path>, p: Path)
    requires Progress(w0, w, t, paths)
    ensures (t.From(p) in w.artifacts <==> t.From(p) in w0.artifacts) && CopyCost(w, t, p) == CopyCost(w0, t, p)
    ensures Sound(w, t) && IdsUsed(w)
    ensures t.From(p) in w0.artifacts ==>
              var rec := w0.artifacts[t.From(p)];
              && w.artifacts[t.From(p)] == rec && TrueHash(w, t, rec)
              && (FileMissing(w, t, rec) <==> FileMissing(w0, t, rec))
              && (rec.blobId.Some? && !t.SameStore() && !FileMissing(w, t, rec) ==> !Dangles(w, t, rec))
  {
  }

  lemma NothingCopied(w: World, t: Target)
    ensures FilesKept(w, w) && OnlyStore(t.destStore, w, w) && forall k :: SameBut(w, w, k)
  {
  }

  lemma SkipKeeps(w0: World, w: World, t: Target, paths: set<Path>, p: Path)
    requires Progress(w0, w, t, paths) && t.From(p) !in w.artifacts
    ensures Progress(w0, w, t, paths + {p}) && t.From(p) !in w0.artifacts
  {
  }

  lemma CopyKeeps(w0: World, before: World, mid: World, after: World, t: Target, paths: set<Path>, p: Path, rec: Record)
    requires t.Sensible() && Progress(w0, before, t, paths) && t.From(p) in before.artifacts
    requires Sound(mid, t) && FilesKept(before, mid) && OnlyStore(t.destStore, before, mid) && mid.artifacts == before.artifacts
    requires after == mid.(artifacts := mid.artifacts[t.To(p) := rec])
    requires var s := before.artifacts[t.From(p)];
             && rec == s.(blobId := rec.blobId)
             && (s.blobId.None? || t.SameStore() ==> rec == s)
             && (s.blobId.Some? && !t.SameStore() ==>
                   && File(t.sourceStore, s.blobId.value) in before.files
                   && rec.blobId.Some? && File(t.destStore, rec.blobId.value) in mid.files
                   && mid.files[File(t.destStore, rec.blobId.value)] == before.files[File(t.sourceStore, s.blobId.value)])
    ensures Progress(w0, after, t, paths + {p}) && Sound(after, t) && FilesKept(before, after)
    ensures t.From(p) in w0.artifacts && SameBut(before, after, t.To(p))
  {
    hide OnlyThese, AllCopied;
    assert FilesKept(w0, after) && FilesKept(before, after);
    SourceStays(w0, before, after, t, p, rec);
    SourceStays(before, before, after, t, p, rec);
    SoundKept(before, mid, after, t);
    assert Copied(w0, after, t, p);
    hide Sound, FilesKept, TrueHash, Copied;
    CopiedStay(w0, before, after, t, paths, p, rec);
    OnlyOneMore(w0, before, after, t, paths, p, rec);
  }

  lemma SourceStays(w0: World, before: World, after: World, t: Target, p: Path, rec: Record)
    requires t.Sensible() && SourceKept(w0, before, t) && t.From(p) in before.artifacts
    requires after.artifacts == before.artifacts[t.To(p) := rec]
    requires t.SameStore() ==> rec == before.artifacts[t.From(p)]
    ensures SourceKept(w0, after, t)
  {
  }

  lemma CopiedStay(w0: World, before: World, after: World, t: Target, paths: set<Path>, p: Path, rec: Record)
    requires AllCopied(w0, before, t, paths) && FilesKept(before, after) && Copied(w0, after, t, p)
    requires after.artifacts == before.artifacts[t.To(p) := rec]
    ensures AllCopied(w0, after, t, paths + {p})
  {
    forall q | q in paths && q != p && t.From(q) in w0.artifacts
      ensures Copied(w0, after, t, q)
    {
      assert Copied(w0, before, t, q);
    }
  }

  lemma OnlyOneMore(w0: World, before: World, after: World, t: Target, paths: set<Path>, p: Path, rec: Record)
    requires OnlyThese(w0, before, t, paths) && t.From(p) in w0.artifacts
    requires after.artifacts == before.artifacts[t.To(p) := rec]
    ensures OnlyThese(w0, after, t, paths + {p})
  {
  }

  lemma SoundKept(before: World, mid: World, after: World, t: Target)
    requires Sound(mid, t) && mid.artifacts == before.artifacts
    requires after == mid.(artifacts := after.artifacts) && SourceKept(before, after, t)
    ensures Sound(after, t)
  {
    forall q | t.From(q) in after.artifacts
      ensures TrueHash(after, t, after.artifacts[t.From(q)])
    {
      assert after.artifacts[t.From(q)] == before.artifacts[t.From(q)];
      assert TrueHash(mid, t, mid.artifacts[t.From(q)]);
    }
  }

  // --- Moves within one repository ---

  /** A move within one repository copies every record onto itself and then deletes the tag: it
      either changes nothing or loses the tag, exactly when it may overwrite, the manifests can be
      read, and no request of it fails. */
  method MoveWithin(depot: Depot, repo: Repo, store: Store, image: Option<string>, tag: string, overwrite: bool,
                    parse: Bytes -> Json)
    returns (r: Result<(Digest, nat)>, ghost closure: set<Path>)
    requires Sound(depot.w, Target(repo, store, repo, store))
    modifies depot
    ensures var t, key := Target(repo, store, repo, store), TagPath(image, tag);
            var g := Graph(old(depot.w), t, image, parse);
            && (overwrite && Copyable(g, key) ==> ClosureOf(g, key, closure))
            && (r.Ok? <==> && overwrite && Copyable(g, key)
                           && Quiet(depot.outage, old(depot.requests),
                                    old(depot.requests) + CopyCosts(old(depot.w), t, closure) + 1))
    ensures depot.w.artifacts == old(depot.w).artifacts - if r.Ok? then {Key(repo, TagPath(image, tag))} else {}
  {
    hide Sound, TagSafe, Confined, CopyDone, Closure, CopyCosts, Quiet, Reachable, Graph.Readable;
    var t, key := Target(repo, store, repo, store), TagPath(image, tag);
    ghost var g := Graph(depot.w, t, image, parse);
    ghost var copied;
    r, copied, closure := depot.CopyTag(t, image, tag, true, overwrite, parse);
    NothingMissing(g.w, t, closure);
    if r.Ok? {
      DoneOntoItself(g, key, r.value.0, r.value.1, copied);
    } else {
      ConfinedOntoItself(g, key, depot.w);
    }
  }

  lemma NothingMissing(w: World, t: Target, paths: set<Path>)
    requires t.SameStore()
    ensures NoneMissing(w, t, paths)
  {
  }

  lemma DoneOntoItself(g: Graph, key: Path, root: Digest, n: nat, c: World)
    requires CopyDone(g, key, root, n, c) && g.t.sourceRepo == g.t.destRepo && g.t.SameStore()
    ensures c.artifacts == g.w.artifacts
  {
    var paths :| Closure(g, key, root, paths) && n == Held(g.w, g.t, paths)
                 && AllCopied(g.w, c, g.t, paths) && OnlyThese(g.w, c, g.t, paths);
    forall k
      ensures k in g.w.artifacts <==> k in c.artifacts
      ensures k in g.w.artifacts ==> c.artifacts[k] == g.w.artifacts[k]
    {
      if k.repo == g.t.destRepo && k.path in paths && g.t.From(k.path) in g.w.artifacts {
        assert k == g.t.To(k.path) == g.t.From(k.path) && Copied(g.w, c, g.t, k.path);
      }
    }
  }

  lemma ConfinedOntoItself(g: Graph, key: Path, s: World)
    requires Confined(g, key, s) && g.t.sourceRepo == g.t.destRepo
    ensures s.artifacts == g.w.artifacts
  {
    if s != g.w {
      var root, paths :| TagIs(g, key, root) && Closure(g, key, root, paths) && Within(g.w, s, g.t, paths);
      forall k
        ensures k in g.w.artifacts <==> k in s.artifacts
        ensures k in g.w.artifacts ==> s.artifacts[k] == g.w.artifacts[k]
      {
        assert k.repo == g.t.destRepo ==> k == g.t.From(k.path);
      }
    }
  }

  /** How that happens: the tag of a one-manifest image is moved onto itself, and is gone. */
  method MovedOntoItself(image: Option<string>, tag: string) returns (r: Result<(Digest, nat)>, after: World)
    ensures r.Ok? && after.artifacts.Keys == {Key("r", Manifest(image, "d"))}
  {
    var t, key := Target("r", "s", "r", "s"), TagPath(image, tag);
    var w := World(map[t.From(key) := Record(DockerTag("d"), None, None, 0, ""),
                       t.From(Manifest(image, "d")) := Record(DockerManifest, Some(0), Some(Blake3([])), 0, "")],
                   map[], map[File("s", 0) := []], 1);
    var parse := (data: Bytes) => Unparsable;
    var depot := new Depot(w, n => false);
    ghost var g := Graph(w, t, image, parse);
    assert g.Stored("d", []);
    OneManifest(g, "d");
    assert Copyable(g, key);
    ghost var closure;
    r, closure := MoveWithin(depot, "r", "s", image, tag, true, parse);
    after := depot.w;
    assert r.Ok?;
    assert after.artifacts == w.artifacts - {t.From(key)};
  }

  /** A manifest without children is all that can be reached from it. */
  lemma OneManifest(g: Graph, root: Digest)
    requires forall c :: !g.Lists(root, c)
    ensures forall d :: Reachable(g, root, d) <==> d == root
  {
    forall d | Reachable(g, root, d)
      ensures d == root
    {
      var p :| PathTo(g, root, d, p);
      ClosedHasPath(g, root, {root}, p);
    }
    ReachRoot(g, root);
  }
}
