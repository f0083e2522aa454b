/** The widths of the machine's unsigned integers. */
module Words {
  const W32: nat := 0x1_0000_0000
  const W64: nat := 0x1_0000_0000_0000_0000
}
