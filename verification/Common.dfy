/** Types and a sequence operation that several modules share. */
module Common {

  datatype Option<T> = None | Some(value: T)

  /** uint8_t and uint32_t. */
  type Byte = n: nat | n < 256
  type U32 = n: nat | n < 0x1_0000_0000

  /** The sequence without element `k`. */
  ghost function Without<T>(s: seq<T>, k: nat): seq<T>
    requires k < |s|
  {
    s[..k] + s[k + 1..]
  }
}
