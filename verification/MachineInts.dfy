/** The 64-bit integer that Rust's `as usize` gives. */
module MachineInts {
  const USIZE: nat := 0x1_0000_0000_0000_0000

  /** `count as usize`. */
  function AsUsize(count: int): nat { count % USIZE }
}
