/** What several of the modules use. */
module Common {

  datatype Option<+T> = None | Some(value: T)

  /** A value, or the exception or error return in its place. */
  datatype Result<+T> = Ok(value: T) | Err

  type Byte = x: int | 0 <= x < 0x100
  type Data = seq<Byte>

  function Pow16(n: nat): (p: nat)
    ensures p >= 1
  {
    if n == 0 then 1 else 16 * Pow16(n - 1)
  }
}
