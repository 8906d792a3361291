/** Machine integers of the C sources. */
module CTypes {
  const UINT: nat := 0x1_0000_0000   // values of an unsigned int

  type byte = x: int | 0 <= x < 256
}
