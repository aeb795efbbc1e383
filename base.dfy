/** Machine integer ranges, byte buffers and the error-carrying wrappers the
    rest of the model uses in place of Rust's `Result` and `Option`. */
module Base {

  /** Rust `u32`. */
  type uint32 = x: int | 0 <= x < 0x1_0000_0000

  /** Rust `u64`, kept as a mathematical integer so that sums never wrap. */
  type uint64 = x: int | 0 <= x < 0x1_0000_0000_0000_0000

  /** `std::u64::MAX`. */
  const UINT64_MAX: uint64 := 0xFFFF_FFFF_FFFF_FFFF

  /** A `Vec<u8>` or `&[u8]`: its length is a `usize`, so it always fits in a `u64`. */
  type Bytes = s: seq<bv8> | |s| < 0x1_0000_0000_0000_0000

  datatype Result<+T, +E> = Ok(value: T) | Err(error: E)

  datatype Option<+T> = Nothing | Some(value: T)
}
