/** The units of a block device. */
module Sectors {
  /** BDRV_SECTORS_PER_DIRTY_CHUNK and BDRV_SECTOR_SIZE */
  const CHUNK: nat := 2048
  const SECTOR_SIZE: nat := 512
}
