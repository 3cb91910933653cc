/** Content-addressed blobs: the names the ingest, counter and copy models share. */
module Blobs {
  import opened Chunks

  type Store = string
  type BlobId = nat

  /** A collision-free content hash: it determines the content. */
  datatype Hash = Blake3(of: Bytes)

  /** One file of one blob store. */
  datatype File = File(store: Store, id: BlobId)

  /** The key of a blob record: at most one per store and hash. */
  datatype Claim = Claim(store: Store, hash: Hash)
}
