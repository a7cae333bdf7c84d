/** The blob store (GridFS) that holds generated contract documents. */
module BlobStore {
  import opened Common
  import Text

  /** The opaque identifier `put` returns. */
  type FileId = nat

  /** A stored file's metadata (`migrated` is None when `put` is not given it); its bytes are not modelled. */
  datatype StoredFile = StoredFile(filename: string, contractNumber: string, migrated: Option<bool>)

  /** `str(file_id)`. */
  function IdString(id: FileId): string {
    Text.NatToString(id)
  }

  /** Different files have different identifier strings, and none is empty. */
  lemma IdStringInjective(a: FileId, b: FileId)
    ensures |IdString(a)| > 0
    ensures IdString(a) == IdString(b) ==> a == b
  {
    Text.NatToStringInjective(a, b);
  }

  class GridFs {
    /** Every file put so far; a file's identifier is its position. */
    var files: seq<StoredFile>

    constructor ()
      ensures files == []
    {
      files := [];
    }

    /** `put(bytes, filename=…, contract_number=…[, migrated=True])`: stores one file under a fresh identifier. */
    method Put(filename: string, contractNumber: string, migrated: Option<bool>) returns (id: FileId)
      modifies this
      ensures id == |old(files)|
      ensures files == old(files) + [StoredFile(filename, contractNumber, migrated)]
    {
      id := |files|;
      files := files + [StoredFile(filename, contractNumber, migrated)];
    }
  }
}
