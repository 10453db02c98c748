/** The tiles of a map and sets of them. */
module TileMap {
  const SIZE := 1024

  type Tile = (int, int)
  type Tiles = set<Tile>

  predicate InMap(x: int, y: int) { 0 <= x < SIZE && 0 <= y < SIZE }
}
