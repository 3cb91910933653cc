/** The multipart strategy of the S3 blob writer, against a service that enforces S3's own rules
    for assembling an object from its parts. Which requests fail is any function of their number;
    a failed request leaves the service as it was. */
module S3Writer {
  import opened Lex
  import opened Chunks
  import opened Requests

  const MIN_PART_SIZE: nat := 5 * 1024 * 1024

  /** The service's limit on part numbers, which the writer does not know of. */
  const MAX_PARTS: nat := 10_000

  /** What the service answers: a request that breaks its rules is `Rejected`; one that does not
      may still have `Failed`. */
  datatype Reply = Accepted | Failed | Rejected

  type Parts = map<nat, Bytes>

  function Assemble(numbers: seq<nat>, uploaded: Parts): Bytes
    requires forall n :: n in numbers ==> n in uploaded
  {
    if numbers == [] then []
    else
      var last := |numbers| - 1;
      assert numbers[last] in numbers;
      Assemble(numbers[..last], uploaded) + uploaded[numbers[last]]
  }

  lemma {:induction false} AssembleFrame(numbers: seq<nat>, a: Parts, b: Parts)
    requires forall n :: n in numbers ==> n in a && n in b && a[n] == b[n]
    ensures Assemble(numbers, a) == Assemble(numbers, b)
  {
    if numbers != [] {
      var last := |numbers| - 1;
      assert numbers[last] in numbers;
      AssembleFrame(numbers[..last], a, b);
    }
  }

  lemma AssembleSnoc(numbers: seq<nat>, uploaded: Parts, n: nat, body: Bytes)
    requires forall m :: m in numbers ==> m in uploaded
    requires n !in numbers
    ensures forall m :: m in numbers + [n] ==> m in uploaded[n := body]
    ensures Assemble(numbers + [n], uploaded[n := body]) == Assemble(numbers, uploaded) + body
  {
    assert (numbers + [n])[..|numbers|] == numbers;
    AssembleFrame(numbers, uploaded, uploaded[n := body]);
  }

  lemma OneMorePart(n: nat)
    ensures (n + 1) * MIN_PART_SIZE == n * MIN_PART_SIZE + MIN_PART_SIZE
  {
  }

  /** Full parts bound how many there can be. */
  lemma {:induction false} FullPartsBound(numbers: seq<nat>, uploaded: Parts)
    requires forall n :: n in numbers ==> n in uploaded && |uploaded[n]| >= MIN_PART_SIZE
    ensures |numbers| * MIN_PART_SIZE <= |Assemble(numbers, uploaded)|
  {
    if numbers != [] {
      var last := |numbers| - 1;
      var n := numbers[last];
      assert n in numbers;
      FullPartsBound(numbers[..last], uploaded);
      assert |Assemble(numbers, uploaded)| == |Assemble(numbers[..last], uploaded)| + |uploaded[n]|;
      OneMorePart(last);
    }
  }

  /** The service's rules: at least one part, ascending numbers, every part uploaded, and every
      part but the last of the minimum size. */
  predicate Assemblable(numbers: seq<nat>, uploaded: Parts) {
    && numbers != []
    && (forall i, j :: 0 <= i < j < |numbers| ==> numbers[i] < numbers[j])
    && (forall i :: 0 <= i < |numbers| ==> numbers[i] in uploaded)
    && (forall i :: 0 <= i < |numbers| - 1 ==> |uploaded[numbers[i]]| >= MIN_PART_SIZE)
  }

  /** Parts numbered from 1 without gaps, which are exactly the ones uploaded. */
  ghost predicate Numbered(parts: seq<nat>, uploaded: Parts) {
    && (forall i :: 0 <= i < |parts| ==> parts[i] == i + 1)
    && (forall n :: n in uploaded <==> n in parts)
  }

  ghost predicate AllFull(uploaded: Parts) {
    forall n :: n in uploaded ==> |uploaded[n]| >= MIN_PART_SIZE
  }

  lemma NumberedSnoc(parts: seq<nat>, uploaded: Parts, body: Bytes)
    requires Numbered(parts, uploaded)
    ensures Numbered(parts + [|parts| + 1], uploaded[|parts| + 1 := body])
    ensures Assemble(parts + [|parts| + 1], uploaded[|parts| + 1 := body])
         == Assemble(parts, uploaded) + body
  {
    AssembleSnoc(parts, uploaded, |parts| + 1, body);
  }

  lemma FullAssemblable(parts: seq<nat>, uploaded: Parts)
    requires Numbered(parts, uploaded) && AllFull(uploaded)
    ensures parts != [] ==> Assemblable(parts, uploaded)
    ensures |parts| * MIN_PART_SIZE <= |Assemble(parts, uploaded)|
  {
    FullPartsBound(parts, uploaded);
    forall i | 0 <= i < |parts|
      ensures parts[i] in uploaded
    {
      assert parts[i] in parts;
    }
  }

  /** The last part may be of any size. */
  lemma LastAssemblable(parts: seq<nat>, uploaded: Parts, n: nat, body: Bytes)
    requires Numbered(parts, uploaded) && AllFull(uploaded) && n == |parts| + 1
    ensures Assemblable(parts + [n], uploaded[n := body])
  {
    var all := parts + [n];
    forall i | 0 <= i < |all|
      ensures all[i] in uploaded[n := body]
    {
      assert i < |parts| ==> all[i] == parts[i] && parts[i] in parts;
    }
  }

  /** A flush from request `r` on: one request when the upload is open, two when it is not. */
  predicate FlushSucceeds(outage: nat -> bool, open: bool, r: nat) {
    !outage(r) && (open || !outage(r + 1))
  }

  function AfterFlush(outage: nat -> bool, open: bool, r: nat): nat {
    if open || outage(r) then r + 1 else r + 2
  }

  /** Whether the requests that finish the upload all go through. */
  predicate FinishSucceeds(outage: nat -> bool, open: bool, empty: bool, r: nat) {
    !outage(r) && (open && !empty ==> !outage(r + 1))
  }

  class S3BlobWriter {
    // The writer's fields.
    var uploadId: Option<nat>
    var parts: seq<nat>
    var buffer: Bytes
    var partNumber: nat
    var totalSize: nat
    // What the service holds: the parts of this upload, and the object once it is visible.
    var uploaded: Parts
    var visible: Option<Bytes>
    // Requests are numbered; these are the ones that fail.
    const outage: nat -> bool
    var requests: nat

    ghost predicate Sound()
      reads this
    {
      && Numbered(parts, uploaded)
      && partNumber == |parts| + 1
      && (parts != [] ==> uploadId.Some?)
    }

    ghost function Contents(): Bytes
      reads this
      requires Numbered(parts, uploaded)
    {
      Assemble(parts, uploaded) + buffer
    }

    /** Nothing is visible and a part is only sent once full. Holds after failures too. */
    ghost predicate Usable()
      reads this
    {
      Sound() && AllFull(uploaded) && visible.None?
    }

    /** What holds between calls while nothing has failed: all bytes accepted are accounted for,
        and less than one part is held back. */
    ghost predicate Valid()
      reads this
    {
      && Usable() && |buffer| < MIN_PART_SIZE && totalSize == |Contents()|
      && (uploadId.Some? ==> parts != [])
    }

    constructor (outage: nat -> bool)
      ensures Valid() && Contents() == [] && uploadId.None? && requests == 0 && this.outage == outage
    {
      this.outage := outage;
      uploadId, parts, buffer, partNumber, totalSize := None, [], [], 1, 0;
      uploaded, visible, requests := map[], None, 0;
    }

    method CreateMultipartUpload() returns (reply: Reply)
      modifies this`uploadId, this`requests
      ensures reply == if outage(old(requests)) then Failed else Accepted
      ensures requests == old(requests) + 1
      ensures if reply == Accepted then uploadId.Some? else uploadId == old(uploadId)
    {
      requests := requests + 1;
      if outage(requests - 1) {
        return Failed;
      }
      var id: nat := *;
      uploadId, reply := Some(id), Accepted;
    }

    method UploadPart(n: nat, body: Bytes) returns (reply: Reply)
      modifies this`uploaded, this`requests
      ensures reply == if n > MAX_PARTS then Rejected else if outage(old(requests)) then Failed else Accepted
      ensures requests == old(requests) + 1
      ensures uploaded == if reply == Accepted then old(uploaded)[n := body] else old(uploaded)
    {
      requests := requests + 1;
      if n > MAX_PARTS {
        return Rejected;
      }
      if outage(requests - 1) {
        return Failed;
      }
      uploaded, reply := uploaded[n := body], Accepted;
    }

    method CompleteMultipartUpload(numbers: seq<nat>) returns (reply: Reply)
      modifies this`visible, this`requests
      ensures reply == if !Assemblable(numbers, uploaded) then Rejected
                       else if outage(old(requests)) then Failed
                       else Accepted
      ensures requests == old(requests) + 1
      ensures reply == Accepted ==> visible == Some(Assemble(numbers, uploaded))
      ensures reply != Accepted ==> visible == old(visible)
    {
      requests := requests + 1;
      if !Assemblable(numbers, uploaded) {
        return Rejected;
      }
      if outage(requests - 1) {
        return Failed;
      }
      visible, reply := Some(Assemble(numbers, uploaded)), Accepted;
    }

    method PutObject(body: Bytes) returns (reply: Reply)
      modifies this`visible, this`requests
      ensures reply == if outage(old(requests)) then Failed else Accepted
      ensures requests == old(requests) + 1
      ensures visible == if reply == Accepted then Some(body) else old(visible)
    {
      requests := requests + 1;
      if outage(requests - 1) {
        return Failed;
      }
      visible, reply := Some(body), Accepted;
    }

    /** Sends the whole buffer as the next part, opening the upload first if need be. When the
        upload cannot be opened nothing is lost; when the part cannot be sent, the buffer is. */
    method FlushPart() returns (ok: bool)
      requires Sound()
      modifies this
      ensures Sound() && visible == old(visible) && totalSize == old(totalSize)
      ensures ok <==> FlushSucceeds(outage, old(uploadId).Some?, old(requests)) && old(partNumber) <= MAX_PARTS
      ensures requests == AfterFlush(outage, old(uploadId).Some?, old(requests))
      ensures old(uploadId).Some? ==> uploadId == old(uploadId)
      ensures ok ==> uploadId.Some? && buffer == [] && Contents() == old(Contents())
      ensures ok ==> parts == old(parts) + [old(partNumber)]
      ensures ok ==> uploaded == old(uploaded)[old(partNumber) := old(buffer)]
      ensures !ok ==> parts == old(parts) && uploaded == old(uploaded)
      ensures !ok ==> buffer == if uploadId.None? then old(buffer) else []
      ensures !ok ==> (uploadId.None? <==> old(uploadId).None? && outage(old(requests)))
    {
      hide Assemble, Numbered;
      if uploadId.None? {
        var started := CreateMultipartUpload();
        if started != Accepted {
          return false;
        }
      }
      var body := buffer;
      buffer := [];
      NumberedSnoc(parts, uploaded, body);
      var sent := UploadPart(partNumber, body);
      if sent != Accepted {
        return false;
      }
      parts := parts + [partNumber];
      partNumber := partNumber + 1;
      ok := true;
    }

    /** Appends the chunk and sends every full buffer. After a failure the writer still counts the
        bytes, whether or not it still has them. */
    method WriteChunk(data: Bytes) returns (ok: bool)
      requires Usable()
      modifies this
      ensures Usable() && totalSize == old(totalSize) + |data|
      ensures ok ==> Contents() == old(Contents()) + data
      ensures old(Valid()) && ok ==> Valid()
      ensures |old(buffer)| + |data| < MIN_PART_SIZE ==>
                && ok && requests == old(requests) && uploadId == old(uploadId)
                && parts == old(parts) && buffer == old(buffer) + data
      ensures |old(buffer)| + |data| >= MIN_PART_SIZE ==>
                && (ok <==> FlushSucceeds(outage, old(uploadId).Some?, old(requests)) && old(partNumber) <= MAX_PARTS)
                && requests == AfterFlush(outage, old(uploadId).Some?, old(requests))
                && (ok ==> buffer == [] && parts == old(parts) + [old(partNumber)] && uploadId.Some?)
      ensures !ok ==> parts == old(parts) && uploaded == old(uploaded)
      ensures !ok ==> buffer == if uploadId.None? then old(buffer) + data else []
    {
      totalSize := totalSize + |data|;
      buffer := buffer + data;
      ghost var whole := buffer;
      assert Contents() == old(Contents()) + data;
      var sent := false;
      while |buffer| >= MIN_PART_SIZE
        invariant Usable() && Contents() == old(Contents()) + data && totalSize == old(totalSize) + |data|
        invariant !sent ==> buffer == whole && parts == old(parts) && uploaded == old(uploaded)
                            && partNumber == old(partNumber) && uploadId == old(uploadId) && requests == old(requests)
        invariant sent ==> buffer == [] && parts == old(parts) + [old(partNumber)] && uploadId.Some?
                           && |whole| >= MIN_PART_SIZE && FlushSucceeds(outage, old(uploadId).Some?, old(requests))
                           && old(partNumber) <= MAX_PARTS
                           && requests == AfterFlush(outage, old(uploadId).Some?, old(requests))
        decreases |buffer|
      {
        ok := FlushPart();
        if !ok {
          return;
        }
        sent := true;
      }
      ok := true;
    }

    /** The remaining bytes as the last part, then the request that assembles the object. */
    method CompleteUpload() returns (reply: Reply)
      requires Usable() && uploadId.Some?
      modifies this
      ensures uploadId == old(uploadId)
      ensures reply == Rejected <==> old(parts) == [] && old(buffer) == []
      ensures reply != Rejected ==>
                (reply == Accepted <==> && FinishSucceeds(outage, true, old(buffer) == [], old(requests))
                                        && (old(buffer) == [] || old(partNumber) <= MAX_PARTS))
      ensures visible == if reply == Accepted then Some(old(Contents())) else None
      ensures reply == Accepted ==> |parts| == |old(parts)| + if old(buffer) == [] then 0 else 1
    {
      hide Assemblable, AllFull, Numbered, Assemble;
      FullAssemblable(parts, uploaded);
      NothingAssemblable(uploaded);
      if buffer != [] {
        LastAssemblable(parts, uploaded, partNumber, buffer);
        var ok := FlushPart();
        if !ok {
          return Failed;
        }
      }
      NothingHeld(parts, uploaded);
      reply := CompleteMultipartUpload(parts);
    }

    /** One plain put when nothing was sent yet, else the remaining bytes as the last part. The
        object becomes what the writer still has. The service has no reason to reject that, unless
        the one part ever flushed was lost and nothing came after it. */
    method Finish() returns (reply: Reply, total: nat)
      requires Usable()
      modifies this
      ensures uploadId == old(uploadId)
      ensures reply == Rejected <==> old(uploadId).Some? && old(parts) == [] && old(buffer) == []
      ensures reply != Rejected ==>
                (reply == Accepted <==> && FinishSucceeds(outage, old(uploadId).Some?, old(buffer) == [], old(requests))
                                        && (old(uploadId).None? || old(buffer) == [] || old(partNumber) <= MAX_PARTS))
      ensures visible == if reply == Accepted then Some(old(Contents())) else None
      ensures total == old(totalSize)
      ensures reply == Accepted ==> |parts| == |old(parts)| + if old(uploadId).None? || old(buffer) == [] then 0 else 1
      ensures reply == Accepted ==> (|parts| - 1) * MIN_PART_SIZE <= |old(Contents())|
    {
      total := totalSize;
      FullAssemblable(parts, uploaded);
      hide Assemblable, AllFull;
      if uploadId.None? {
        assert parts == [] && Contents() == buffer;
        reply := PutObject(buffer);
        return;
      }
      reply := CompleteUpload();
    }
  }

  lemma NothingHeld(parts: seq<nat>, uploaded: Parts)
    requires Numbered(parts, uploaded)
    ensures Assemble(parts, uploaded) + [] == Assemble(parts, uploaded)
  {
  }

  lemma NothingAssemblable(uploaded: Parts)
    ensures !Assemblable([], uploaded)
  {
  }

  /** How many full parts these chunks make, and how many bytes are held back after them. A part
      takes everything held when it is sent, so small chunks make small parts and large ones few. */
  function Sent(chunks: seq<Bytes>): (r: (nat, nat))
    ensures r.1 < MIN_PART_SIZE
  {
    if chunks == [] then (0, 0)
    else
      var (parts, held) := Sent(chunks[..|chunks| - 1]);
      var now := held + |chunks[|chunks| - 1]|;
      if now >= MIN_PART_SIZE then (parts + 1, 0) else (parts, now)
  }

  lemma {:induction false} SentGrows(chunks: seq<Bytes>, i: nat)
    requires i <= |chunks|
    ensures Sent(chunks[..i]).0 <= Sent(chunks).0
    decreases |chunks| - i
  {
    if i < |chunks| {
      assert chunks[..i + 1][..i] == chunks[..i];
      SentGrows(chunks, i + 1);
    } else {
      assert chunks[..i] == chunks;
    }
  }

  /** How many parts the whole upload has; without a full one it is a plain put. */
  function PartsNeeded(chunks: seq<Bytes>): nat {
    var (parts, held) := Sent(chunks);
    if parts == 0 || held == 0 then parts else parts + 1
  }

  /** One request opens the upload, one sends each part, one completes it; or one puts it all. */
  function RequestsNeeded(chunks: seq<Bytes>): nat {
    if PartsNeeded(chunks) == 0 then 1 else PartsNeeded(chunks) + 2
  }

  /** For any chunking and any outage, either the whole concatenation becomes the object or nothing
      does; it does exactly when the chunks make no more parts than the service numbers and none of
      the requests fails. The part count stays within one of the object's size over the minimum
      part size. */
  method WriteAll(chunks: seq<Bytes>, outage: nat -> bool) returns (reply: Reply, visible: Option<Bytes>, parts: nat)
    ensures reply == Accepted <==> PartsNeeded(chunks) <= 10_000 && Quiet(outage, 0, RequestsNeeded(chunks))
    ensures PartsNeeded(chunks) <= 10_000 ==> reply != Rejected
    ensures visible == if reply == Accepted then Some(Concat(chunks)) else None
    ensures reply == Accepted ==> parts == PartsNeeded(chunks) && (parts - 1) * (5 * 1024 * 1024) <= |Concat(chunks)|
  {
    hide Sent, Stands, Quiet, PartsNeeded, RequestsNeeded, Assemble, Numbered, AllFull, FlushSucceeds, AfterFlush, FinishSucceeds;
    var writer := new S3BlobWriter(outage);
    var i := 0;
    StandsFirst(outage);
    while i < |chunks|
      invariant i <= |chunks| && fresh(writer) && writer.Valid() && writer.outage == outage
      invariant writer.Contents() == Concat(chunks[..i])
      invariant Stands(chunks[..i], outage, |writer.parts|, |writer.buffer|, writer.requests)
    {
      assert chunks[..i + 1][..i] == chunks[..i];
      ghost var parts, held, r := |writer.parts|, |writer.buffer|, writer.requests;
      WriterOpen(writer);
      var ok := writer.WriteChunk(chunks[i]);
      ChunkTurn(chunks, i, outage, parts, held, r, ok, |writer.parts|, |writer.buffer|, writer.requests);
      if !ok {
        return Failed, None, 0;
      }
      i := i + 1;
    }
    assert chunks[..i] == chunks;
    WriterOpen(writer);
    LastTurn(chunks, outage, |writer.parts|, |writer.buffer|, writer.requests);
    var total;
    reply, total := writer.Finish();
    visible, parts := writer.visible, |writer.parts|;
  }

  /** Where the upload of these chunks stands when nothing has failed. */
  ghost predicate Stands(chunks: seq<Bytes>, outage: nat -> bool, parts: nat, held: nat, requests: nat) {
    && Sent(chunks) == (parts, held) && parts <= MAX_PARTS
    && requests == (if parts == 0 then 0 else parts + 1) && Quiet(outage, 0, requests)
  }

  lemma WriterOpen(writer: S3BlobWriter)
    requires writer.Valid()
    ensures (writer.uploadId.Some? <==> |writer.parts| > 0) && writer.partNumber == |writer.parts| + 1
  {
  }

  lemma StandsFirst(outage: nat -> bool)
    ensures Stands([], outage, 0, 0, 0)
  {
  }

  /** One more chunk: the upload goes on, or the whole of it cannot succeed. */
  lemma ChunkTurn(chunks: seq<Bytes>, i: nat, outage: nat -> bool, parts: nat, held: nat, r: nat,
                  ok: bool, parts': nat, held': nat, r': nat)
    requires i < |chunks| && Stands(chunks[..i], outage, parts, held, r)
    requires held + |chunks[i]| < MIN_PART_SIZE ==> ok && r' == r && parts' == parts && held' == held + |chunks[i]|
    requires held + |chunks[i]| >= MIN_PART_SIZE ==>
               && (ok <==> FlushSucceeds(outage, parts > 0, r) && parts + 1 <= MAX_PARTS)
               && (ok ==> r' == AfterFlush(outage, parts > 0, r) && parts' == parts + 1 && held' == 0)
    ensures if ok then Stands(chunks[..i + 1], outage, parts', held', r')
            else PartsNeeded(chunks) > MAX_PARTS || !Quiet(outage, 0, RequestsNeeded(chunks))
  {
    assert chunks[..i + 1][..i] == chunks[..i];
    SentGrows(chunks, i + 1);
    if !ok && parts < MAX_PARTS {
      var bad := if outage(r) then r else r + 1;
      assert outage(bad) && bad < RequestsNeeded(chunks);
    }
  }

  lemma LastTurn(chunks: seq<Bytes>, outage: nat -> bool, parts: nat, held: nat, r: nat)
    requires Stands(chunks, outage, parts, held, r)
    ensures PartsNeeded(chunks) <= MAX_PARTS && Quiet(outage, 0, RequestsNeeded(chunks))
       <==> && FinishSucceeds(outage, parts > 0, held == 0, r)
            && (parts == 0 || held == 0 || parts + 1 <= MAX_PARTS)
    ensures PartsNeeded(chunks) == parts + if parts == 0 || held == 0 then 0 else 1
  {
  }

  // --- Finishing after a failure ---

  /** A caller that finishes whatever the last write said: an object that appears is whole exactly
      when the write succeeded or it was the upload that could not be opened. Otherwise the object
      is shorter than the size reported for it. */
  method FinishRegardless(writer: S3BlobWriter, data: Bytes) returns (wrote: bool, reply: Reply, total: nat)
    requires writer.Valid()
    modifies writer
    ensures total == |old(writer.Contents()) + data|
    ensures reply == Accepted ==>
              && writer.visible.Some?
              && (writer.visible.value == old(writer.Contents()) + data <==> wrote || writer.uploadId.None?)
              && (writer.visible.value == old(writer.Contents()) + data || |writer.visible.value| < total)
  {
    hide Assemble, AllFull;
    ghost var before, held := writer.Contents(), writer.buffer;
    ghost var sent := Assemble(writer.parts, writer.uploaded);
    wrote := writer.WriteChunk(data);
    ghost var kept := writer.Contents();
    assert before == sent + held;
    if !wrote {
      if writer.uploadId.None? {
        assert kept == sent + (held + data) == before + data;
      } else {
        assert kept == sent + [] == sent;
      }
    }
    reply, total := writer.Finish();
  }

  /** How that happens: the first part is sent, the request for the second fails, the caller
      finishes all the same. The service publishes the first part alone, and the writer reports
      the size of both. */
  method TruncatedUpload(first: Bytes, second: Bytes)
    returns (wrote: bool, reply: Reply, total: nat, visible: Option<Bytes>)
    requires |first| >= MIN_PART_SIZE && |second| >= MIN_PART_SIZE
    ensures !wrote && reply == Accepted && visible == Some(first) && total == |first| + |second|
  {
    hide Assemble, AllFull;
    var writer := new S3BlobWriter(n => n == 2);
    var ok := writer.WriteChunk(first);
    assert writer.Contents() == [] + first == first && writer.parts != [];
    ghost var sent := Assemble(writer.parts, writer.uploaded);
    assert sent + [] == sent == first;
    wrote := writer.WriteChunk(second);
    assert writer.Contents() == sent + [] == first;
    reply, total := writer.Finish();
    visible := writer.visible;
  }
}
