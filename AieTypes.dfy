/** Entities shared by the components: tiles of the device grid and DMA channel directions. */
module AieTypes {

  /** A tile of the device grid, identified by its (column, row) coordinates. */
  datatype Tile = Tile(col: int, row: int)

  /** Direction of a DMA channel: memory to stream (send) or stream to memory (receive). */
  datatype DmaChannelDir = MM2S | S2MM
}
