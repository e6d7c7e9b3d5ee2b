/** Fixed-width integer types of the C sources and the Option wrapper used for
    nullable pointers and optional results. */
module Types {

  const UINT32_LIMIT: int := 0x1_0000_0000

  /** uint32_t */
  type uint32 = x: int | 0 <= x < UINT32_LIMIT

  /** A value that may be absent: a NULL pointer, or "no event". */
  datatype Option<+T> = None | Some(value: T)
}
