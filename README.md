# Pathfinding demo: priority queue, tiles and grid

This project models three classes of a small Unity pathfinding showcase and proves
properties of the model:

- `SimplePriorityQueue<T>` is a min-priority container that keeps a list of
  `(item, priority)` pairs. `Enqueue` appends a pair without deduplication.
  `Dequeue` scans the list with a strict `<` for the smallest priority, then removes
  and returns that entry. `Contains` tests membership. Because the scan only moves to
  a strictly smaller priority, ties go to the earliest-inserted entry, so the queue is
  stable.
- `Tile` holds one walkability flag. A new tile is walkable. A mouse click toggles the
  flag and repaints the tile's sprite. The colour is `walkableColor` or
  `blockedColor`, depending only on the flag.
- `GridManager` keeps the list `allTiles`. `GenerateGrid` appends
  `max(width,0)*max(height,0)` new tiles in x-major order, named `Tile_{x}_{y}`. `ResetGrid` forces every listed tile
  walkable and repaints it.

Files:

- `PriorityQueue.dfy` is module `PriorityQueues`.
  - `FirstMin` is the reference definition of the entry that `Dequeue` takes.
  - `FindBest` is the scan loop of `Dequeue`, proved against `FirstMin`.
  - `RemoveAt` models `List.RemoveAt`. `HasItem` models `List.Exists`.
  - `DrainOrder` is the order in which repeated `Dequeue` calls return the entries.
    Three lemmas prove that this order is a permutation of the stored entries, is
    sorted by priority, and keeps the insertion order among equal priorities.
  - The class `SimplePriorityQueue` keeps `_data` as a field `data: seq<Entry<T>>`.
    Its methods update that field.
- `Tile.dfy` is module `Tiles`.
  - `TileState` holds a tile's observable fields.
  - `Repaint` and `Click` are the value-level effects of `UpdateColor` and
    `OnMouseDown`.
  - The class `Tile` has the mutable fields. Its methods are proved against those
    effects.
- `GridManager.dfy` is module `Grid`.
  - `NatToString` and `TileName` produce the tile names.
  - `Spawned(x, y)` is the state of the tile spawned for column x, row y.
    `Flatten` lays columns out one after the other. Lemmas prove the count and the
    x-major offset of that layout.
  - `ResetAll` is the effect of `ResetGrid` on the list of tile states. Lemmas prove
    that it makes every tile walkable, keeps the list's shape, and is idempotent.
  - The class `GridManager` has `GenerateGrid`, `ResetGrid` and `RunPathfinding`.

Model decisions:

- Priorities are `int`. The code only ever applies `<` to priorities.
- `Dequeue` on an empty queue throws in the source. The exception comes from the
  index `_data[0]`, before anything is removed. The model returns `None` and leaves
  the list unchanged.
- The scan loop of `Dequeue` is the method `FindBest`, which `Dequeue` calls.
- The inner `for y` loop of `GenerateGrid` is the method `SpawnColumnTiles`, which the
  outer loop calls. Each method also returns, as ghost output, the tiles it appended.
  `SpawnColumnTiles` returns one column; `GenerateGrid` returns the columns, and
  `cols[x][y]` is the tile spawned for (x, y).
- A tile's sprite renderer is the value `renderer` of the tile. It is either
  `NoRenderer` (the null reference) or `Sprite(color)`.
- Instantiating the tile prefab becomes the `Tile` constructor. The constructor takes
  the tile's name and whether a renderer was found. It sets the field defaults:
  walkable, white and red. Then it paints the renderer as `Awake` does.
- `width` and `height` are integer constants of the grid. The code never writes them.
  A value of zero or less gives an empty loop, so no tiles are spawned.

These classes contain no search code: `RunPathfinding` only logs. On grid sizes and the
tile list, the model does what the code does:

- `GenerateGrid` does not reject non-positive sizes. It spawns no tiles for them.
- `GenerateGrid` appends to the existing list rather than replacing it.
- `ResetGrid` only restores walkability and repaints; it changes nothing else.

## Model

| member | source | states |
|---|---|---|
| `PriorityQueues.FirstMin` | Assets/SimplePriorityQueue.cs:19-22 | the index the scan settles on has a priority ≤ every stored priority, and every earlier entry has a strictly larger priority (ties go to the earliest entry) |
| `PriorityQueues.FirstMinUnique` | Assets/SimplePriorityQueue.cs:19-22 | at most one index has the first-minimum property, so any such index is `FirstMin` |
| `PriorityQueues.FindBest` | Assets/SimplePriorityQueue.cs:19-22 | the `for` loop with `best` starting at 0 and moving only on a strict `<` returns the first index of minimal priority |
| `PriorityQueues.RemoveAt` | Assets/SimplePriorityQueue.cs:25 | removing index k leaves one entry fewer: entries before k stay in place, entries after k shift down by one in order, and the multiset loses exactly that entry |
| `PriorityQueues.HasItem` | Assets/SimplePriorityQueue.cs:31 | the search over the pairs is true iff some pair holds the item |
| `PriorityQueues.HasItemAppend` | Assets/SimplePriorityQueue.cs:13 | appending a pair adds exactly its item to the items found, and nothing else changes |
| `PriorityQueues.WithPriorityExtract` | Assets/SimplePriorityQueue.cs:21-25 | removing the entry at k, when no earlier entry shares its priority (as the strict `<` scan guarantees), takes the first of the entries of that priority and leaves the order of all other entries unchanged |
| `PriorityQueues.DrainIsPermutation` | Assets/SimplePriorityQueue.cs:16-27 | repeated Dequeue returns every stored entry exactly as many times as it was stored |
| `PriorityQueues.DrainIsSorted` | Assets/SimplePriorityQueue.cs:16-27 | repeated Dequeue returns entries in non-decreasing priority |
| `PriorityQueues.DrainIsStable` | Assets/SimplePriorityQueue.cs:21-22 | repeated Dequeue returns entries of equal priority in insertion order (stability) |
| `PriorityQueues.SimplePriorityQueue.constructor` | Assets/SimplePriorityQueue.cs:7 | a new queue holds no pairs |
| `PriorityQueues.SimplePriorityQueue.Count` | Assets/SimplePriorityQueue.cs:9 | Count is the number of stored pairs, duplicates included |
| `PriorityQueues.SimplePriorityQueue.Enqueue` | Assets/SimplePriorityQueue.cs:11-14 | the pair is appended at the end, earlier pairs are unchanged, Count grows by one, the item is then contained, and membership of every other item is unchanged (no deduplication) |
| `PriorityQueues.SimplePriorityQueue.Dequeue` | Assets/SimplePriorityQueue.cs:16-27 | on an empty queue: nothing is returned and nothing changes. Otherwise: it returns the item of the first entry of minimal priority, removes exactly that entry keeping the rest in order, Count drops by one, the multiset loses that entry, and the rest drains as `DrainOrder` says |
| `PriorityQueues.SimplePriorityQueue.Contains` | Assets/SimplePriorityQueue.cs:29-32 | true iff some stored pair's item equals the argument; it reads the queue and changes nothing |
| `Tiles.ChosenColor` | Assets/Tile.cs:35 | a walkable tile selects `walkableColor`, a blocked one `blockedColor` |
| `Tiles.Repaint` | Assets/Tile.cs:31-37 | afterwards a present renderer shows the colour the flag selects. Renderer presence and every other field are unchanged. With no renderer nothing changes |
| `Tiles.Click` | Assets/Tile.cs:23-28 | a click negates the flag, keeps name and colours, and leaves the renderer showing the new flag's colour |
| `Tiles.ClickTwice` | Assets/Tile.cs:26 | two clicks restore the flag, and restore the whole tile when its renderer already showed its flag |
| `Tiles.Tile.constructor` | Assets/Tile.cs:8-20 | a new tile is walkable, with white and red as its colours, and a renderer (if any) showing white |
| `Tiles.Tile.OnMouseDown` | Assets/Tile.cs:23-28 | the flag is negated and the displayed colour matches the new flag |
| `Tiles.Tile.UpdateColor` | Assets/Tile.cs:31-37 | the renderer, if present, shows `walkableColor` when walkable and `blockedColor` otherwise. Without a renderer the tile is unchanged |
| `Grid.NatToString` | Assets/GridManager.cs:31 | the decimal text of a coordinate is non-empty |
| `Grid.NatToStringDigits` | Assets/GridManager.cs:31 | the decimal text of a coordinate consists of digits only |
| `Grid.NatToStringNoLeadingZero` | Assets/GridManager.cs:31 | a coordinate of two or more digits has no leading zero, so the text is the canonical decimal form interpolation prints |
| `Grid.ParseNatToString` | Assets/GridManager.cs:31 | the decimal text of a coordinate reads back as that coordinate |
| `Grid.TileName` | Assets/GridManager.cs:31 | the name is `Tile_` followed by the decimal x, `_` and the decimal y. Its contract states the `Tile_` prefix and a length of the two coordinate texts plus six; the separator and the read-back are stated by `TileNameParts` |
| `Grid.TileNameParts` | Assets/GridManager.cs:31 | the name `Tile_{x}_{y}` starts with `Tile_`, and the first underscore after it ends the digits of x. Both coordinates read back from their places in the name |
| `Grid.TileNameInjective` | Assets/GridManager.cs:31 | `Tile_{x}_{y}` names of different coordinates differ |
| `Grid.Spawned` | Assets/GridManager.cs:30-31 | the tile `Instantiate` gives and then names `Tile_{x}_{y}` is walkable and shows it. It has a renderer exactly when the prefab has one |
| `Grid.FlattenLength` | Assets/GridManager.cs:24-36 | with `Extent(n) = max(n,0)`: `Extent(width)` columns of `Extent(height)` tiles each give `Extent(width)*Extent(height)` tiles in the list |
| `Grid.FlattenMember` | Assets/GridManager.cs:24-35 | every appended tile belongs to one of the columns, so the per-column freshness of `GenerateGrid` covers each new element of `allTiles` |
| `Grid.FlattenAt` | Assets/GridManager.cs:24-35 | x-major layout: the tile of column x, row y sits at offset `x*height + y` among the appended tiles |
| `Grid.ResetTile` | Assets/GridManager.cs:44-45 | a reset tile is walkable and shows it. Its name, colours and renderer presence are unchanged |
| `Grid.ResetTileIdempotent` | Assets/GridManager.cs:44-45 | resetting a tile that is already reset changes nothing |
| `Grid.ResetAll` | Assets/GridManager.cs:42-46 | the reset keeps the number of tiles |
| `Grid.ResetAllAt` | Assets/GridManager.cs:42-46 | the reset treats the tile at each position on its own: walkable, then repainted |
| `Grid.ResetAllShape` | Assets/GridManager.cs:42-46 | after a reset every tile is walkable and shows it. Length, order, names, colour choices and renderer presence are unchanged |
| `Grid.ResetAllIdempotent` | Assets/GridManager.cs:40-47 | resetting twice equals resetting once |
| `Grid.GridManager.constructor` | Assets/GridManager.cs:8-13 | a new grid has the given sizes and an empty tile list |
| `Grid.GridManager.GenerateGrid` | Assets/GridManager.cs:20-37 | the earlier tiles are kept in front; only the grid object is modified, so they are unchanged. After them come `width` columns (none if width ≤ 0) of `height` fresh tiles each (none if height ≤ 0), column after column; the tile of column x, row y is walkable, named `Tile_{x}_{y}`, white and red, and shows white if it has a renderer |
| `Grid.GridManager.SpawnColumnTiles` | Assets/GridManager.cs:26-35 | the inner loop appends `Extent(height)` fresh tiles in row order; the tile of row y is the freshly instantiated `Tile_{x}_{y}` |
| `Grid.GridManager.ResetGrid` | Assets/GridManager.cs:40-47 | the list itself is unchanged, and the tiles' states become `ResetAll` of their old states. That covers repeated tiles, idempotence and shape, by the lemmas above |
| `Grid.GridManager.RunPathfinding` | Assets/GridManager.cs:50-53 | no grid or tile state changes |

## Left out

- Priorities are `int`, not `float`. IEEE semantics are not modelled, including NaN making `<` non-total.
- `EqualityComparer<T>.Default` is Dafny's equality on a type with decidable equality (`T(==)`).
- Unity lifecycle hooks `Start` and `Update` are host dispatch. `Start` only calls `GenerateGrid`, and both `Update` methods are empty.
- `Awake` is folded into the `Tile` constructor. `GetComponent<SpriteRenderer>` becomes the constructor's `hasRenderer` parameter.
- `Instantiate` of the prefab is a fresh `Tile` with the field defaults. Values set on the prefab in the editor, other than whether it has a renderer, are not modelled.
- Renderers are part of their tile, so two tiles sharing one renderer object is not modelled.
- Spawn positions (`Vector2` offsets, `Quaternion.identity`) are floating-point rendering geometry and are not computed.
- Colours keep their channels as `real` values, which are only copied. `Color.white` and `Color.red` are (1,1,1,1) and (1,0,0,1).
- `Debug.Log` in `RunPathfinding` is output only.
- BFS, A*, path reconstruction and search sessions are not part of this model. They do not occur in these classes.
- The C# `int` loop counters `x` and `y` and `List.Count` are unbounded here. Their 32-bit overflow is not modelled.
- The O(n) cost of `Dequeue` is not a property of the model.
- Grid.GridManager.GenerateGrid: its own contract states the new tiles as columns `cols[x][y]`. The total of `Extent(width)*Extent(height)` tiles and the offset `x*height + y` of each are stated by `FlattenLength` and `FlattenAt`, outside the method's contract, to keep the method's proof small.
