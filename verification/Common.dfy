/** Results, errors, and the foreign functions the container is built on. */
module Common {
  import opened Binary

  datatype Option<+T> = None | Some(value: T)

  /** The public errors; the format package's own header, directory and chunk errors
      are already mapped to InvalidFormat, as `mapErr` does at every boundary. */
  datatype Error =
    | InvalidFormat | CRCMismatch | LimitExceeded | UnsupportedFeature | UnsupportedCodec
    | NotFound | AlreadyExists | ClosedPipe | IO | EOF | Other(code: int)

  datatype Result<+T> = Ok(value: T) | Err(error: Error)

  /** Checksum, path hash and codecs as arbitrary deterministic functions.  No theorem
      assumes that checksums or hashes of different inputs differ. */
  datatype Primitives = Primitives(
    crc: Bytes -> u32,
    fnv: Bytes -> u64,
    compress: (Bytes, u8, u8) -> Result<Bytes>,
    decompress: (Bytes, u8, u32) -> Result<Bytes>)
  {
    /** What is assumed of the codecs: decompression undoes compression. */
    ghost predicate InversePair()
    {
      forall raw: Bytes, codec: u8, level: u8 {:trigger compress(raw, codec, level)} ::
        0 < |raw| < U32 && compress(raw, codec, level).Ok? ==>
          var comp := compress(raw, codec, level).value;
          0 < |comp| < U32 && decompress(comp, codec, |raw|) == Ok(raw)
    }
  }

  const MAX_BLOB: u64 := 0x4000_0000  // 1 GiB cap on DIR1 and IDX1 reads
}
