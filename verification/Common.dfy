/** Definitions that several parts of the kernel share. */
module Common {
  datatype Option<+T> = None | Some(value: T)

  const ROOTDEV: nat := 1    // the only disk
  const BSIZE: nat := 1024   // bytes in a block

  function Min(a: nat, b: nat): nat {
    if a < b then a else b
  }
}
