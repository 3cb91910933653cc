/** Aligned block I/O: the buffering writer, the reader, and the one-shot put and get. All
    must agree with plain concatenation of the bytes. */
module DirectIo {
  import opened Lex
  import opened Chunks

  const ALIGN: nat := 4096

  function RoundUp(n: nat): nat {
    (n + ALIGN - 1) / ALIGN * ALIGN
  }

  /** The least multiple of the alignment that is not below `n`. */
  lemma RoundUpLeast(n: nat)
    ensures RoundUp(n) % ALIGN == 0 && n <= RoundUp(n) < n + ALIGN
    ensures forall m: nat :: m % ALIGN == 0 && n <= m ==> RoundUp(n) <= m
  {
  }

  lemma RoundUpMonotone(a: nat, b: nat)
    requires a <= b
    ensures RoundUp(a) <= RoundUp(b)
  {
    RoundUpLeast(a);
    RoundUpLeast(b);
  }

  /** The mask trick on 64-bit words: a multiple of 4096, not below `n`, by less than 4096,
      as long as adding 4095 does not wrap. */
  lemma RoundUpMask(n: bv64)
    requires n <= 0xFFFF_FFFF_FFFF_F000
    ensures var r := (n + 4095) & !4095;
            r & 4095 == 0 && n <= r && r - n <= 4095
  {
  }

  /** A padded block always fits the buffer exactly when the buffer size is aligned. */
  lemma PaddingFits(ioSize: nat)
    ensures (forall n: nat :: n <= ioSize ==> RoundUp(n) <= ioSize) <==> ioSize % ALIGN == 0
  {
    if ioSize % ALIGN != 0 {
      RoundUpLeast(ioSize);
      assert RoundUp(ioSize) > ioSize;
    } else {
      forall n: nat | n <= ioSize
        ensures RoundUp(n) <= ioSize
      {
        RoundUpLeast(n);
      }
    }
  }

  // --- The device ---

  function Zeros(n: nat): (z: Bytes)
    ensures |z| == n
  {
    seq(n, _ => 0)
  }

  /** `write_all_at`: bytes past the old end appear, any gap reads as zeros. */
  function Overlay(disk: Bytes, offset: nat, src: Bytes): Bytes {
    if offset > |disk| then disk + Zeros(offset - |disk|) + src
    else disk[..offset] + src + if offset + |src| < |disk| then disk[offset + |src|..] else []
  }

  /** `set_len`: cuts, or extends with zeros. */
  function SetLen(disk: Bytes, n: nat): Bytes {
    if n <= |disk| then disk[..n] else disk + Zeros(n - |disk|)
  }

  /** Laying the next block behind a right prefix gives a longer right prefix. */
  lemma OverlayExtends(disk: Bytes, data: Bytes, offset: nat, chunk: nat, src: Bytes)
    requires offset == |disk| && offset + chunk <= |data| && chunk <= |src|
    requires disk == data[..offset] && src[..chunk] == data[offset..offset + chunk]
    ensures var after := Overlay(disk, offset, src);
            |after| == offset + |src| && after[..offset + chunk] == data[..offset + chunk]
  {
    assert Overlay(disk, offset, src) == disk + src;
    assert (disk + src)[..offset + chunk] == disk + src[..chunk];
    assert data[..offset + chunk] == data[..offset] + data[offset..offset + chunk];
  }

  /** `read_at`: a device may return fewer bytes than asked for, but never none before the end. */
  method ReadAt(file: Bytes, offset: nat, dest: array<Byte>, size: nat) returns (n: nat)
    requires offset < |file| && 0 < size <= dest.Length
    modifies dest
    ensures 0 < n <= size && offset + n <= |file| && dest[..n] == file[offset..offset + n]
  {
    n := *;
    if n < 1 || n > size || offset + n > |file| {
      n := 1;
    }
    var src := file[offset..offset + n];
    forall i | 0 <= i < n {
      dest[i] := src[i];
    }
  }

  datatype Extent = Extent(offset: nat, size: nat)

  predicate Aligned(e: Extent) {
    e.offset % ALIGN == 0 && e.size % ALIGN == 0
  }

  /** The writes that take a file from `offset` to `total`: full blocks, then one padded block. */
  function Blocks(offset: nat, total: nat, ioSize: nat): seq<Extent>
    requires ioSize > 0
    decreases total - offset
  {
    if total <= offset then []
    else if total - offset < ioSize then [Extent(offset, RoundUp(total - offset))]
    else [Extent(offset, ioSize)] + Blocks(offset + ioSize, total, ioSize)
  }

  lemma SumAligned(a: nat, b: nat)
    requires a % ALIGN == 0 && b % ALIGN == 0
    ensures (a + b) % ALIGN == 0
  {
  }

  lemma {:induction false} BlocksAligned(offset: nat, total: nat, ioSize: nat)
    requires ioSize > 0 && ioSize % ALIGN == 0 && offset % ALIGN == 0
    ensures forall e :: e in Blocks(offset, total, ioSize) ==> Aligned(e)
    decreases total - offset
  {
    hide RoundUp;
    if total > offset {
      RoundUpLeast(total - offset);
      if total - offset >= ioSize {
        SumAligned(offset, ioSize);
        BlocksAligned(offset + ioSize, total, ioSize);
        assert Aligned(Extent(offset, ioSize));
      }
    }
  }

  /** Every write of every file is aligned exactly when the block size is. */
  lemma AlignedIff(ioSize: nat)
    requires ioSize > 0
    ensures (forall total: nat, e :: e in Blocks(0, total, ioSize) ==> Aligned(e))
       <==> ioSize % ALIGN == 0
  {
    if ioSize % ALIGN == 0 {
      forall total: nat, e | e in Blocks(0, total, ioSize)
        ensures Aligned(e)
      {
        BlocksAligned(0, total, ioSize);
      }
    } else {
      assert Blocks(0, ioSize, ioSize) == [Extent(0, ioSize)];
      assert Extent(0, ioSize) in Blocks(0, ioSize, ioSize);
      assert !Aligned(Extent(0, ioSize));
    }
  }

  /** The server takes the block size in KiB, from 4 to 65536: only multiples of 4 are safe. */
  lemma ConfiguredSizes(kib: nat)
    requires 4 <= kib <= 65536
    ensures kib % 4 == 0
       <==> forall total: nat, e :: e in Blocks(0, total, kib * 1024) ==> Aligned(e)
  {
    AlignedIff(kib * 1024);
  }

  /** `writes` are the first writes of the plan of every file that reaches past `offset`. */
  ghost predicate OnPlan(writes: seq<Extent>, offset: nat, ioSize: nat)
    requires ioSize > 0
  {
    forall total: nat :: total >= offset ==>
                           writes + Blocks(offset, total, ioSize) == Blocks(0, total, ioSize)
  }

  predicate FullBlocks(writes: seq<Extent>, ioSize: nat) {
    forall e :: e in writes ==> e.size == ioSize
  }

  /** The device takes a file when no write of its plan is larger than the buffer. */
  predicate Takes(total: nat, ioSize: nat)
    requires ioSize > 0
  {
    forall e :: e in Blocks(0, total, ioSize) ==> e.size <= ioSize
  }

  lemma LastBlockDecides(writes: seq<Extent>, offset: nat, total: nat, ioSize: nat)
    requires ioSize > 0 && OnPlan(writes, offset, ioSize) && FullBlocks(writes, ioSize) && offset <= total < offset + ioSize
    ensures Takes(total, ioSize) <==> RoundUp(total - offset) <= ioSize
  {
    hide RoundUp;
    RoundUpLeast(0);
    assert writes + Blocks(offset, total, ioSize) == Blocks(0, total, ioSize);
    if offset < total {
      assert Extent(offset, RoundUp(total - offset)) in writes + Blocks(offset, total, ioSize);
    }
  }

  lemma OnPlanNext(writes: seq<Extent>, offset: nat, ioSize: nat)
    requires ioSize > 0 && OnPlan(writes, offset, ioSize)
    ensures OnPlan(writes + [Extent(offset, ioSize)], offset + ioSize, ioSize)
  {
    forall total: nat | total >= offset + ioSize
      ensures writes + [Extent(offset, ioSize)] + Blocks(offset + ioSize, total, ioSize)
           == Blocks(0, total, ioSize)
    {
      assert Blocks(offset, total, ioSize)
          == [Extent(offset, ioSize)] + Blocks(offset + ioSize, total, ioSize);
      assert writes + [Extent(offset, ioSize)] + Blocks(offset + ioSize, total, ioSize)
          == writes + Blocks(offset, total, ioSize);
    }
  }

  lemma TakeMore(start: Bytes, data: Bytes, pos: nat, n: nat)
    requires pos + n <= |data|
    ensures start + data[..pos] + data[pos..pos + n] == start + data[..pos + n]
  {
    assert data[..pos] + data[pos..pos + n] == data[..pos + n];
  }

  // --- The writer ---

  class DirectWriter {
    var disk: Bytes
    var buf: array<Byte>
    var bufLen: nat
    const ioSize: nat
    var fileOffset: nat
    var totalSize: nat
    ghost var writes: seq<Extent>

    /** All the bytes accepted so far, on the device or still buffered. */
    ghost function Contents(): Bytes
      reads this, buf
      requires bufLen <= buf.Length
    {
      disk + buf[..bufLen]
    }

    ghost predicate Valid()
      reads this, buf
    {
      && 0 < ioSize == buf.Length && bufLen < ioSize
      && fileOffset == |disk|
      && totalSize == |Contents()|
      && OnPlan(writes, fileOffset, ioSize) && FullBlocks(writes, ioSize)
    }

    constructor (ioSize: nat)
      requires ioSize > 0
      ensures Valid() && this.ioSize == ioSize && Contents() == [] && fresh(buf)
    {
      this.ioSize := ioSize;
      disk, bufLen, fileOffset, totalSize, writes := [], 0, 0, 0, [];
      buf := new Byte[ioSize];
    }

    method WriteAt(src: Bytes, offset: nat)
      modifies this`disk, this`writes
      ensures disk == Overlay(old(disk), offset, src)
      ensures writes == old(writes) + [Extent(offset, |src|)]
    {
      disk := Overlay(disk, offset, src);
      writes := writes + [Extent(offset, |src|)];
    }

    /** Writes the full buffer out and takes another, of unknown contents, from the pool. */
    method FlushFull()
      requires 0 < ioSize == buf.Length == bufLen && fileOffset == |disk|
      requires OnPlan(writes, fileOffset, ioSize) && FullBlocks(writes, ioSize)
      modifies this
      ensures bufLen == 0 && buf.Length == ioSize && fresh(buf) && fileOffset == |disk|
      ensures Contents() == old(Contents()) && totalSize == old(totalSize)
      ensures OnPlan(writes, fileOffset, ioSize) && FullBlocks(writes, ioSize)
    {
      OnPlanNext(writes, fileOffset, ioSize);
      var full := buf;
      buf := new Byte[ioSize];
      WriteAt(full[..ioSize], fileOffset);
      fileOffset := fileOffset + ioSize;
      bufLen := 0;
      assert disk == old(Contents());
    }

    /** Copies a slice of the caller's bytes behind the ones already buffered. */
    method Append(src: Bytes)
      requires bufLen + |src| <= buf.Length
      modifies this`bufLen, buf
      ensures bufLen == old(bufLen) + |src| && buf[..bufLen] == old(buf[..bufLen]) + src
    {
      forall i | 0 <= i < |src| {
        buf[bufLen + i] := src[i];
      }
      bufLen := bufLen + |src|;
    }

    method WriteChunk(data: Bytes)
      requires Valid()
      modifies this, buf
      ensures Valid() && Contents() == old(Contents()) + data
      ensures buf == old(buf) || fresh(buf)
    {
      ghost var start := Contents();
      var pos := 0;
      totalSize := totalSize + |data|;
      while pos < |data|
        invariant pos <= |data| && bufLen < ioSize == buf.Length && fileOffset == |disk|
        invariant OnPlan(writes, fileOffset, ioSize) && FullBlocks(writes, ioSize)
        invariant Contents() == start + data[..pos]
        invariant totalSize == |start| + |data|
        invariant buf == old(buf) || fresh(buf)
      {
        var space := ioSize - bufLen;
        var n := if |data| - pos < space then |data| - pos else space;
        ghost var before := Contents();
        ghost var front := buf[..bufLen];
        Append(data[pos..pos + n]);
        assert Contents() == before + data[pos..pos + n] by {
          assert disk + (front + data[pos..pos + n]) == disk + front + data[pos..pos + n];
        }
        TakeMore(start, data, pos, n);
        pos := pos + n;
        if bufLen == ioSize {
          FlushFull();
        }
      }
      assert data[..|data|] == data;
    }

    /** The last block is padded with zeros and the file cut back to its true length. It fails
        only when the padded block is larger than the buffer. */
    method Finish() returns (ok: bool, total: nat)
      requires Valid()
      modifies this, buf
      ensures ok <==> RoundUp(old(bufLen)) <= ioSize
      ensures ok <==> Takes(|old(Contents())|, ioSize)
      ensures ok ==> disk == old(Contents()) && total == |disk|
      ensures ok ==> writes == Blocks(0, total, ioSize)
      ensures ioSize % ALIGN == 0 ==> ok && forall e :: e in writes ==> Aligned(e)
    {
      hide Overlay;
      ok, total := true, totalSize;
      ghost var bytes := Contents();
      if ioSize % ALIGN == 0 {
        PaddingFits(ioSize);
        BlocksAligned(0, total, ioSize);
      }
      LastBlockDecides(writes, fileOffset, total, ioSize);
      assert Blocks(fileOffset, total, ioSize)
          == if bufLen == 0 then [] else [Extent(fileOffset, RoundUp(bufLen))];
      if bufLen > 0 {
        RoundUpLeast(bufLen);
        var writeSize := RoundUp(bufLen);
        if writeSize > ioSize {
          return false, total;
        }
        forall i | bufLen <= i < writeSize {
          buf[i] := 0;
        }
        var src := buf[..writeSize];
        assert src[..bufLen] == buf[..bufLen] == bytes[fileOffset..];
        assert disk == bytes[..fileOffset] && bytes[..total] == bytes;
        OverlayExtends(disk, bytes, fileOffset, bufLen, src);
        WriteAt(src, fileOffset);
      }
      disk := SetLen(disk, total);
      assert disk == bytes;
    }
  }

  /** For any split of any bytes into chunks, the finished file is their concatenation. */
  method WriteAll(chunks: seq<Bytes>, ioSize: nat) returns (ok: bool, file: Bytes, ghost writes: seq<Extent>)
    requires ioSize > 0
    ensures ok <==> Takes(|Concat(chunks)|, ioSize)
    ensures ok ==> file == Concat(chunks)
    ensures ioSize % ALIGN == 0 ==> ok
    ensures ok ==> writes == Blocks(0, |file|, ioSize)
    ensures ioSize % ALIGN == 0 ==> forall e :: e in writes ==> Aligned(e)
  {
    var writer := new DirectWriter(ioSize);
    var i := 0;
    while i < |chunks|
      invariant i <= |chunks| && writer.Valid() && writer.ioSize == ioSize
      invariant fresh(writer) && fresh(writer.buf)
      invariant writer.Contents() == Concat(chunks[..i])
    {
      writer.WriteChunk(chunks[i]);
      assert chunks[..i + 1][..i] == chunks[..i];
      i := i + 1;
    }
    assert chunks[..i] == chunks;
    var total;
    ok, total := writer.Finish();
    file, writes := writer.disk, writer.writes;
  }

  // --- The reader ---

  class DirectReader {
    const file: Bytes
    const ioSize: nat
    var fileOffset: nat
    var buf: array<Byte>
    var bufPos: nat
    var bufLen: nat
    var done: bool

    /** The bytes not delivered yet. */
    ghost function Rest(): Bytes
      reads this, buf
      requires bufPos <= bufLen <= buf.Length && fileOffset <= |file|
    {
      buf[bufPos..bufLen] + file[fileOffset..]
    }

    ghost predicate Valid()
      reads this, buf
    {
      && 0 < ioSize == buf.Length && bufPos <= bufLen <= buf.Length && fileOffset <= |file|
      && (done && ioSize % ALIGN == 0 ==> Rest() == [])
    }

    constructor (file: Bytes, ioSize: nat)
      requires ioSize > 0
      ensures Valid() && this.file == file && this.ioSize == ioSize && Rest() == file && fresh(buf)
    {
      this.file, this.ioSize := file, ioSize;
      buf := new Byte[ioSize];
      fileOffset, bufPos, bufLen, done := 0, 0, 0, |file| == 0;
    }

    /** Replaces the exhausted buffer by one device read, of any positive length. */
    method Refill() returns (ok: bool)
      requires Valid() && bufPos == bufLen && fileOffset < |file|
      modifies this, buf
      ensures Valid() && (buf == old(buf) || fresh(buf))
      ensures ok ==> Rest() == old(Rest()) && bufPos < bufLen && done == old(done)
      ensures !ok ==> done && ioSize % ALIGN != 0
      ensures fileOffset >= old(fileOffset)
    {
      hide RoundUp;
      var remaining := |file| - fileOffset;
      var want := if remaining < ioSize then remaining else ioSize;
      RoundUpLeast(want);
      PaddingFits(ioSize);
      if RoundUp(want) > ioSize {
        done := true;
        return false;
      }
      var block := new Byte[ioSize];
      var n := ReadAt(file, fileOffset, block, RoundUp(want));
      assert file[fileOffset..] == block[..n] + file[fileOffset + n..];
      buf, bufPos, bufLen, fileOffset := block, 0, n, fileOffset + n;
      ok := true;
    }

    /** One read into a destination of size `space`. With an aligned block size it delivers a
        prefix of what remains, and delivers nothing into a non-empty destination only when
        nothing remains. */
    method PollRead(space: nat) returns (ok: bool, dst: Bytes)
      requires Valid()
      modifies this, buf
      ensures Valid() && (buf == old(buf) || fresh(buf))
      ensures |dst| <= space
      ensures ok && !old(done) ==> old(Rest()) == dst + Rest()
      ensures ioSize % ALIGN == 0 ==> ok && old(Rest()) == dst + Rest()
      ensures ioSize % ALIGN == 0 ==> (dst == [] <==> space == 0 || old(Rest()) == [])
    {
      hide RoundUp;
      while true
        invariant Valid() && (buf == old(buf) || fresh(buf))
        invariant ioSize % ALIGN == 0 ==> Rest() == old(Rest())
        invariant !old(done) ==> !done && Rest() == old(Rest())
        decreases bufPos == bufLen
      {
        if done {
          return true, [];
        }
        if bufPos < bufLen {
          var n := if bufLen - bufPos < space then bufLen - bufPos else space;
          dst := buf[bufPos..bufPos + n];
          assert buf[bufPos..bufLen] == dst + buf[bufPos + n..bufLen];
          bufPos := bufPos + n;
          return true, dst;
        }
        if fileOffset >= |file| {
          done := true;
          return true, [];
        }
        ok := Refill();
        if !ok {
          return false, [];
        }
      }
    }
  }

  /** Reading until an empty answer, into destinations of any sizes, delivers the whole file. */
  method ReadAll(file: Bytes, ioSize: nat) returns (data: Bytes)
    requires ioSize > 0 && ioSize % ALIGN == 0
    ensures data == file
  {
    hide RoundUp;
    var reader := new DirectReader(file, ioSize);
    data := [];
    var eof := false;
    ghost var rest := file;
    assert data + rest == file;
    while !eof
      invariant reader.Valid() && reader.ioSize == ioSize && fresh(reader) && fresh(reader.buf)
      invariant rest == reader.Rest() && data + rest == file
      invariant eof ==> rest == []
      decreases !eof, |rest|
    {
      var space: nat := *;
      if space == 0 {
        space := 1;
      }
      var ok, dst := reader.PollRead(space);
      Delivered(data, rest, dst, reader.Rest());
      data, rest := data + dst, reader.Rest();
      eof := dst == [];
    }
    assert data + [] == data;
  }

  lemma Delivered(data: Bytes, before: Bytes, dst: Bytes, after: Bytes)
    requires before == dst + after
    ensures data + before == data + dst + after && |before| == |dst| + |after|
  {
  }

  // --- The one-shot put and get ---

  /** A block of the blob, padded with zeros to `writeSize`. */
  method Padded(data: Bytes, offset: nat, chunk: nat, writeSize: nat, ioSize: nat)
    returns (src: Bytes)
    requires offset + chunk <= |data| && chunk <= writeSize <= ioSize
    ensures |src| == writeSize && src[..chunk] == data[offset..offset + chunk]
  {
    var buf := new Byte[ioSize];
    forall i | 0 <= i < writeSize {
      buf[i] := if i < chunk then data[offset + i] else 0;
    }
    src := buf[..writeSize];
  }

  lemma NextBlock(writes: seq<Extent>, offset: nat, total: nat, ioSize: nat, chunk: nat)
    requires ioSize > 0 && ioSize % ALIGN == 0 && offset < total
    requires chunk == if total - offset < ioSize then total - offset else ioSize
    ensures RoundUp(chunk) <= ioSize
    ensures writes + [Extent(offset, RoundUp(chunk))] + Blocks(offset + chunk, total, ioSize)
         == writes + Blocks(offset, total, ioSize)
  {
    PaddingFits(ioSize);
    RoundUpLeast(chunk);
    assert Blocks(offset, total, ioSize)
        == [Extent(offset, RoundUp(chunk))] + Blocks(offset + chunk, total, ioSize);
  }

  lemma BlocksEnd(total: nat, ioSize: nat)
    requires ioSize > 0
    ensures Blocks(total, total, ioSize) == []
  {
  }

  /** The whole blob in one call: the same writes as the streaming writer. */
  method PutBlob(data: Bytes, ioSize: nat) returns (ok: bool, disk: Bytes, ghost writes: seq<Extent>)
    requires ioSize > 0
    ensures ok <==> RoundUp(if |data| < ioSize then |data| else ioSize) <= ioSize || data == []
    ensures ok ==> disk == data
    ensures ioSize % ALIGN == 0 ==> ok
    ensures ioSize % ALIGN == 0 ==> writes == Blocks(0, |data|, ioSize)
  {
    hide Overlay, RoundUp, Blocks;
    disk, writes := [], [];
    var offset := 0;
    while offset < |data|
      invariant offset <= |data|
      invariant offset <= |disk| && disk[..offset] == data[..offset]
      invariant offset < |data| ==> offset == |disk|
      invariant offset > 0 ==> RoundUp(if |data| < ioSize then |data| else ioSize) <= ioSize
      invariant ioSize % ALIGN == 0 ==>
                  writes + Blocks(offset, |data|, ioSize) == Blocks(0, |data|, ioSize)
    {
      var remaining := |data| - offset;
      var chunk := if remaining < ioSize then remaining else ioSize;
      var writeSize := RoundUp(chunk);
      RoundUpLeast(chunk);
      RoundUpMonotone(chunk, if |data| < ioSize then |data| else ioSize);
      if ioSize % ALIGN == 0 {
        NextBlock(writes, offset, |data|, ioSize, chunk);
      }
      if writeSize > ioSize {
        return false, disk, writes;
      }
      var src := Padded(data, offset, chunk, writeSize, ioSize);
      assert disk == data[..offset];
      OverlayExtends(disk, data, offset, chunk, src);
      disk := Overlay(disk, offset, src);
      writes := writes + [Extent(offset, writeSize)];
      offset := offset + chunk;
    }
    BlocksEnd(|data|, ioSize);
    disk := SetLen(disk, |data|);
    ok := true;
  }

  /** Fills a result of the file's size, whatever positive lengths the device returns. */
  method GetBlob(file: Bytes, ioSize: nat) returns (ok: bool, data: Bytes)
    requires ioSize > 0
    ensures ok <==> RoundUp(if |file| < ioSize then |file| else ioSize) <= ioSize || file == []
    ensures ok ==> data == file
    ensures ioSize % ALIGN == 0 ==> ok
  {
    var result := new Byte[|file|];
    var offset := 0;
    while offset < |file|
      invariant offset <= |file| && result[..offset] == file[..offset]
      invariant offset > 0 ==> RoundUp(if |file| < ioSize then |file| else ioSize) <= ioSize
    {
      var remaining := |file| - offset;
      var chunk := if remaining < ioSize then remaining else ioSize;
      RoundUpLeast(chunk);
      PaddingFits(ioSize);
      RoundUpMonotone(chunk, if |file| < ioSize then |file| else ioSize);
      if RoundUp(chunk) > ioSize {
        return false, [];
      }
      var buf := new Byte[ioSize];
      var n := ReadAt(file, offset, buf, RoundUp(chunk));
      var src := buf[..n];
      forall i | 0 <= i < n {
        result[offset + i] := src[i];
      }
      assert result[..offset + n] == file[..offset] + src == file[..offset + n];
      offset := offset + n;
    }
    return true, result[..];
  }

  /** Any chunking in, any read sizes out, streaming or in one call: the same bytes. */
  method RoundTrip(chunks: seq<Bytes>, ioSize: nat) returns (streamed: Bytes, oneShot: Bytes)
    requires ioSize > 0 && ioSize % ALIGN == 0
    ensures streamed == oneShot == Concat(chunks)
  {
    var ok: bool;
    var file: Bytes;
    ghost var writes: seq<Extent>;
    ok, file, writes := WriteAll(chunks, ioSize);
    streamed := ReadAll(file, ioSize);
    ok, file, writes := PutBlob(streamed, ioSize);
    ok, oneShot := GetBlob(file, ioSize);
  }
}
