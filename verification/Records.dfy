/** The five integers by which root and workers speak about a tile, in messages and in windows. */
module Records {
  import opened Tiles

  datatype Record = Record(first: int, tile: Tile)

  // The record that ends a worker's loop.
  const STOP := Record(0, Tile(0, 0, 0, 0))
}
