/** C scalar types used by the cache, and the nullable result of a lookup. */
module CTypes {

  /** The C `int` of the source: priorities, expiry times, values and capacities. */
  newtype Int32 = x: int | -0x8000_0000 <= x <= 0x7fff_ffff

  /** INT_MAX, the default of the cache's time limit. */
  const INT_MAX: Int32 := 0x7fff_ffff

  /** A pointer that may be null. */
  datatype Option<T> = None | Some(value: T)
}
