/** Records shared by the block cache modules. */
module BlockTypes {
  import opened Basics

  type Block = seq<Byte>

  const NO_DEV: nat := 0
  const NO_BLOCK: nat := 0

  /** A block on a device. */
  datatype Key = Key(dev: nat, block: nat)

  /** One slot of the buffer table; links are indices into the table. */
  datatype Buf = Buf(data: Block, next: int, prev: int, hash: int,
                     blocknr: nat, dev: nat, dirty: bool, count: nat)
  {
    function Name(): Key { Key(dev, blocknr) }
  }

  /** How get_block treats a block that is in neither cache. */
  datatype Mode = NORMAL | NO_READ | PREFETCH

  /** What a disk holds; a block never written reads as the empty contents. */
  type Disk = map<Key, Block>

  function Rd(disk: Disk, k: Key): Block {
    if k in disk then disk[k] else []
  }
}
