/** What every module shares. */
module Common {

  datatype Option<+T> = None | Some(value: T)

  /** Exchange ids: see Ordering for why numbers stand for the printed ids. */
  type ID = nat

  /** The largest int64. */
  const MAX64: int := 0x7fff_ffff_ffff_ffff
}
