/** What a disk image of user/include/fs.h looks like to all who read and write it. */
module DiskLayout {
  const FILE2BLK := 16
  const FIRST_BLOCK := 3  // after the boot sector, the super block and the bitmap

  /** A File structure is named by where it lies: the `j`-th of block `b`. */
  function Place(b: nat, j: nat): nat { FILE2BLK * b + j }

  /** The root's lies in the super block. */
  const ROOT := FILE2BLK
}
