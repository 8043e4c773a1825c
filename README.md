# Geocaching game core, modelled in Dafny

The game puts a square grid of tiles over a map. Some tiles hold a
geocache with a few coins. The player pokes a cache to take its last coin
and deposits to put their own last coin back. Each cache's coins are saved
as a JSON memento in a table keyed by tile. A cache rebuilt later restores
its coins from that memento.

This project models the data logic of two files.

| file | what is modelled |
|---|---|
| `src/board.ts` | The cell registry `Board` (`board.dfy`). |
| `src/main.ts` | Coins and their text (`geocoins.dfy`), the number texts used in keys and mementos (`decimal.dfy`), the JSON memento (`memento.dfy`), the `Geocache` class (`geocache.dfy`), and the game state, popups, poke, deposit and `regenerateCells` (`game.dfy`). |

`grid.dfy` holds the tile walks that the search loops follow. `seqs.dfy`
and `wrappers.dfy` hold generic sequence facts and an `Option` type.

State that the source changes in place is modelled as a class:
- the registry map of `Board`;
- the coins of a `Geocache`;
- the popup's `cellList` and `value`;
- the player's `geocoinList` and the memento table of `Game`.

Each loop of the source is a `while` or `for` loop with invariants. Every
method is proved against functions of its inputs:
- `Minted(t, n)` is the first `n` coins of tile `t`.
- `PokeStep` and `DepositStep` describe one step of the two coin stacks.
- `Spawns(luck, ts)` is the tiles of `ts` where a cache spawns, in order.
- `RecordAll` is the coin table after caches are built at a list of tiles.
- `CanonicalFor` says a list of cells is the registry's canonical cells of
  a list of tiles.

The game's `luck` source is a parameter `luck: string -> real`, with every
value in `[0, 1)` (`LuckInRange`). Its keys are the texts the game builds:
`"i,j"`, `"descA,i,j"`, `"descB,i,j"`, `"intialCoins,i,j"` and
`"i,j,initialValue"`.

`Game` carries a ghost map `coinsAt` from tile to coin list. The invariant
`Valid()` says the memento table is exactly the JSON text of `coinsAt`.
Each tile has one canonical `Cell`, so the table is keyed by tile.

## Model

| member | source | states |
|---|---|---|
| `Board.Board.constructor` | src/board.ts:16-20 | Given a positive width, the board keeps the width and visibility radius it is given and starts with an empty registry. |
| `Board.KeyComma` | src/board.ts:24 | The registry key `Key(i, j)`, the text `"i,j"`, holds exactly one comma, right after the text of `i`, so the comma splits it back into its two parts. |
| `Board.KeyInjective` | src/board.ts:24 | Two tiles with the same registry key `"i,j"` are the same tile, so distinct tiles never collide. |
| `Board.Board.GetCanonicalCell` | src/board.ts:22-29 | The result has the argument's `i` and `j` and is the entry stored under its key. If the key was present, the registry is unchanged and the first stored cell is returned. Otherwise exactly one entry is added, the argument itself. The registry stays keyed by each cell's own key. |
| `Board.Board.GetCellForPoint` | src/board.ts:31-35 | The result is the canonical cell at `i = lat`, `j = lng`, with no scaling. The registry only grows, and is unchanged when the tile was known. |
| `Board.Board.GetCellBounds` | src/board.ts:37-48 | The south-west corner is `(i*w, j*w)` and each side is `w` long. The rectangle holds its south-west corner but not its north-east one. |
| `Board.BoundsSide` | src/board.ts:38-47 | The south-west corner is `(i*w, j*w)` and the north-east corner is `((i+1)*w, (j+1)*w)`, so each side is `w` long. |
| `Board.BoundsAdjacent` | src/board.ts:39-46 | The north edge of row `i` is the south edge of row `i+1`, and the east edge of column `j` is the west edge of column `j+1`. |
| `Board.BoundsDisjoint` | src/board.ts:37-48 | For a positive width, a point lies in the half-open rectangle of at most one tile. |
| `Board.Board.GetCellsNearPoint` | src/board.ts:51-61 | This is the corrected search. The result lists the canonical cells of every tile at offsets `-r..r` on both axes, bounds included, row after row, each the registry's entry for its tile. The registry only grows. A negative radius gives no cells. |
| `Board.Board.PushRows` | src/board.ts:55-59 | After the outer loop, the list is the canonical cells of rows `oi-r..oi+r`, each over columns `oj-r..oj+r`. |
| `Board.Board.AppendRow` | src/board.ts:55-59 | One pass of the outer loop appends the canonical cells of one row to those of the rows before. The registry only grows. |
| `Board.Board.PushCanonical` | src/board.ts:57 | One pass of the inner loop appends the registry's canonical cell for the tile `(a, b)`. The registry only grows. |
| `Board.Board.PushRow` | src/board.ts:56-58 | After the inner loop, advancing its own counter `j`, the list is the canonical cells of one row, columns `oj-r..oj+r`. |
| `Board.CanonicalForAt` | src/board.ts:57 | Element `k` of such a list is the cell of tile `k` of the walk, and it is the registry's stored cell for its coordinates. |
| `Board.NearTilesCount` | src/board.ts:55-56 | The search visits `(2r+1)^2` tiles. |
| `Board.NearTilesDistinct` | src/board.ts:55-56 | The search visits no tile twice. |
| `Board.InnerLoopAsWritten` | src/board.ts:56-58 | This is the inner loop as written. After `n` passes, `i` has grown by `n` and `j` is unchanged. The pushed tiles are `(oi+i+k, oj+j)` for `k < n`: one column that keeps growing. |
| `Board.InnerLoopAsWrittenNeverExits` | src/board.ts:56 | As written, the guard `j <= r` holds after any number of passes, so the loop never ends. After `2r+2` passes it has pushed a tile outside the neighbourhood. |
| `Decimal.NatStr` | src/board.ts:24 | The decimal text of a natural number is non-empty. It has one digit exactly for numbers below ten, and starts with `0` only for zero. |
| `Decimal.IntStrChars` | src/main.ts:22 | The text of an integer holds only digits and a minus sign. |
| `Decimal.ParseIntOfIntStr` | src/main.ts:57 | Reading back the text of an integer, when no digit follows it, yields that integer and the rest of the text. |
| `Decimal.ParseIntCanonical` | src/main.ts:57 | The integer reader accepts only texts the writer produces. |
| `Decimal.IntStrInjective` | src/board.ts:24 | Distinct integers have distinct texts. |
| `Geocoins.GeocoinListStr` | src/main.ts:19-26 | The loop builds `ListStr`: the label `"i:j#s"` and a space for each coin, in order. |
| `Geocoins.ListStrAppend` | src/main.ts:21-24 | The text of two lists joined is the text of the first followed by the text of the second. |
| `Geocoins.ListStrEnds` | src/main.ts:19-26 | The empty list gives `""`, and only it does. A non-empty list's text ends in a space. |
| `Geocoins.LabelHasNoSpace` | src/main.ts:22 | A coin label contains no space. |
| `Geocoins.ListStrSpaces` | src/main.ts:19-26 | The text holds exactly one space per coin. |
| `Memento.Encode` | src/main.ts:53 | The memento is a JSON array text, beginning with `[`. It is `"[]"` exactly for the empty list. |
| `Memento.Decode` | src/main.ts:57 | Only `"[]"` decodes to the empty list, and every accepted text begins with `[`. |
| `Memento.DecodeEncode` | src/main.ts:52-58 | `fromMomento(toMomento())` restores the coin list: the same coins, with the same `i`, `j` and serial numbers, in the same order. |
| `Memento.EncodeDecode` | src/main.ts:52-58 | For every text the decoder accepts, `toMomento` after `fromMomento(m)` gives back `m`. |
| `Geocache.Scaled` | src/main.ts:41-45 | `Math.floor(x * n)` of a luck value in `[0, 1)` is an index in `0..n-1`. |
| `Geocache.Description` | src/main.ts:38-43 | The description is one of the four adjectives, a space, and one of the six nouns. |
| `Geocache.InitialCoinCount` | src/main.ts:45 | A new cache holds 0, 1 or 2 coins. |
| `Geocache.MintedAt` | src/main.ts:46-49 | The initial coins number `n`, and coin `k` was minted at the cache's tile with serial number `k`. |
| `Geocache.Geocache.constructor` | src/main.ts:37-50 | The cache gets the luck-drawn description. Its coins are `Minted(t, n)` for its tile `t` and the luck-drawn count `n`. |
| `Geocache.Geocache.ToMomento` | src/main.ts:52-54 | The memento decodes back to the cache's coins. |
| `Geocache.Geocache.FromMomento` | src/main.ts:56-58 | For a decodable memento, the coins become the decoded list and re-encoding gives back the memento. Any other text leaves the coins as they were. The description is untouched. |
| `Game.OpenValue` | src/main.ts:165 | The count a popup draws is between 0 and 9. |
| `Game.CachePopup.constructor` | src/main.ts:161 | A new popup's list of coins on offer is empty. |
| `Game.CachePopup.Open` | src/main.ts:165-173 | The count is the luck-drawn value. The list becomes the first `max(old length, value)` coins minted at the tile, serials `0` up without gaps. When the list already has `value` entries it is unchanged, so opening again adds nothing. |
| `Game.Game.constructor` | src/main.ts:68-72 | The board has width `1e-4` and radius 8. The player holds no coins and the memento table is empty. |
| `Game.Mementos` | src/main.ts:144 | The table holds an entry for exactly the tiles whose coins are recorded. |
| `Game.MementosDecode` | src/main.ts:153-154 | Every table entry decodes to the coin list it was written from. |
| `Game.MementosUpdate` | src/main.ts:162 | Recording one cache's coins changes that tile's entry of the table and no other. |
| `Game.Game.SaveMemento` | src/main.ts:162 | The table's entry for the tile becomes the cache's memento. The recorded coins follow, and nothing else changes. |
| `Game.Game.RestoreMemento` | src/main.ts:153-154 | A cache restored from the table holds the coins recorded for its tile, and keeps its description. |
| `Game.Game.MakeGeocache` | src/main.ts:149-162 | The new cache sits at `(i, j)` and its popup list is empty. The table's entry for the tile becomes the cache's memento. A tile already in the table gets the recorded coins back and leaves the table unchanged, so building twice is idempotent. A new tile records the new cache's initial coins. The player's coins are untouched. The registry only grows and holds the canonical cell of the tile. |
| `Game.Game.Poke` | src/main.ts:181-191 | This is corrected to also require a coin in the cache. When the popup lists coins and the cache has a coin, it is `PokeStep`: the cache's last coin goes on top of the player's stack, the memento is re-recorded and `value` drops by one. Otherwise nothing changes. |
| `Game.Game.Deposit` | src/main.ts:193-206 | With an empty stack, nothing changes. Otherwise it is `DepositStep`: the player's last coin goes on top of the cache's coins, and the memento is re-recorded. |
| `Game.PokeConserves` | src/main.ts:182-184 | A poke loses and creates no coin. When the cache has coins, the player's stack grows by one and the cache's coins shrink by one. |
| `Game.DepositConserves` | src/main.ts:195-198 | A deposit loses and creates no coin. When the player has coins, the player's stack shrinks by one and the cache's coins grow by one. |
| `Game.DepositUndoesPoke` | src/main.ts:184-198 | A deposit right after a poke that took a coin restores both stacks. |
| `Game.PokeUndoesDeposit` | src/main.ts:184-198 | A poke right after a deposit restores both stacks. |
| `Game.PokeAsWritten` | src/main.ts:182-184 | This is the poke handler as written. With an empty list nothing happens. Otherwise the player's stack always grows by one. The coins are conserved when the cache has one. When it has none, an `undefined` entry appears from nowhere. |
| `Game.PokeAsWrittenPushesUndefined` | src/main.ts:182-184 | As written, poking an empty cache whose popup lists coins pushes `undefined` onto the player's stack. |
| `Game.Game.RegenerateCells` | src/main.ts:214-224 | The caches built are those at the window tiles where one spawns, in visiting order and only there. The coin table records those caches. Every popup returned is newly built, with a new cache. Each is ready: nothing on offer yet, and its cache holds the coins the table records for its tile, so it can be opened and poked. The player's coins are untouched and the registry only grows. |
| `Game.Game.AppendRegenRow` | src/main.ts:215-223 | One pass of the outer loop appends the spawning tiles of one row to those of the rows before, and keeps every registry entry. The earlier popups stay ready, because building caches keeps every recorded coin list. The new popups are newly built and ready. |
| `Game.Game.RegenRow` | src/main.ts:216-222 | The inner loop builds caches at exactly the spawning tiles of one row, columns `pj-8..pj+7`, in order. Its popups are newly built and ready. The registry only grows. |
| `Game.Game.RegenTile` | src/main.ts:217-221 | One tile gets a cache exactly when its luck is below the spawn probability 0.1. Every registry entry is kept, and the popups stay ready. |
| `Game.Game.PushGeocache` | src/main.ts:219-220 | The spawning branch appends the popup of the cache built at `(a, b)`. That popup is newly built and ready, the earlier ones stay ready, and the coin table records the new cache. |
| `Game.WindowDone` | src/main.ts:215-223 | When the rows reach `pi + 8`, the caches built and the coin lists recorded are those of the whole window. |
| `Game.WindowSpawnsInOrder` | src/main.ts:215-220 | Going row by row gives the spawning tiles of the whole window in visiting order. |
| `Game.SpawnsMembership` | src/main.ts:219-220 | A tile is among those built exactly when it is in the walk and its luck is below 0.1. |
| `Game.RecordAllKeys` | src/main.ts:150-162 | After caches are built at a list of tiles, the table covers the old tiles and the new ones. Old entries are kept. A new tile's entry is the coins of a freshly built cache there. |
| `Game.WindowShape` | src/main.ts:215-216 | The window holds 256 distinct tiles: exactly those at offsets `-8..7` from the player's tile on both axes. |

## Left out

- The leaflet map, tile layer, marker, rectangles and popup widgets are not modelled. They belong to a rendering library outside this model.
- The DOM buttons, the `innerHTML` texts, the status panel and the `geocoinsVal` counter are user interface.
- `navigator.geolocation.watchPosition` is asynchronous platform input.
- The player's floating-point position is left out: `movePlayer` and the `floor(lat / TILE_DEGREES)` that turns it into a tile. `RegenerateCells` takes the player's tile `(pi, pj)` directly, and the initial `regenerateCells()` call is one such call.
- The `luck` function of `./luck` is not part of this model. It is a parameter whose values lie in `[0, 1)`.
- General `JSON.stringify` and `JSON.parse` are limited to the one shape a coin list takes.
- `Geocache.Geocache.FromMomento`: a text outside that shape leaves the coins as they were, where `JSON.parse` would accept other JSON or throw.
- `TileDegrees` is the exact real 0.0001, not the double nearest `1e-4`. Two further floating-point steps are taken over reals: the tile corners and the luck scaling (the next two lines).
- `Board.BoundsSide`, `Board.Board.GetCellBounds`: the corners are exact reals here, while `src/board.ts:40-45` computes them as IEEE doubles. In doubles a side need not be exactly `w`: for row `i = 369995`, `(i+1)*1e-4 - i*1e-4` is `9.999999999621423e-05`. `Board.BoundsAdjacent` and `Board.BoundsDisjoint` also hold under rounding: a shared edge is the same product, and rounding is monotone.
- `Geocache.Scaled`: `Math.floor(luck * n)` (`src/main.ts:41`, `42`, `45`, `165`) is taken over reals. In doubles, `Math.floor(0.3333333333333333 * 3)` is 1 where the real floor is 0. Each luck key meets exactly one multiplier, so some `luck` function with values in `[0, 1)` reproduces every draw the game makes. The model is therefore no less general.
- JavaScript numbers are modelled as unbounded integers written in plain decimal. Exponent notation for very large values is not modelled, and neither are fractional tile indices.
- The memento table and the caches' coins are keyed by tile, not by `Cell` object identity. Every key comes from `getCellForPoint`. `Game.Game.MakeGeocache` ensures that the registry then holds the tile's canonical cell, and every method that touches the board keeps existing entries. So the two keyings agree. The game state does not carry this correspondence as an invariant.
- The popup's `value` is a field of the popup object instead of a variable captured by the handlers. The poke handler decrements it.
- `geocacheList` and the removal of old rectangles on a move only concern the map display.
- The commented-out code at the end of `src/main.ts` is dead and not modelled.

## Findings

| source | as written | input that shows it | evidently intended | confidence | as-written member | corrected member |
|---|---|---|---|---|---|---|
| src/board.ts:56 | The inner loop of `getCellsNearPoint` increments `i`, not `j`. | Any radius `r >= 0`: `j` stays `-r <= r`, so the loop never ends. | The inner loop advances `j`, giving `(2r+1)^2` distinct cells. | not executed | `Board.InnerLoopAsWrittenNeverExits` | `Board.Board.GetCellsNearPoint` |
| src/main.ts:182-184 | The poke handler checks only `cellList.length > 0` before `coins.pop()`. | A cache with no coins whose popup lists a coin: `pop()` gives `undefined`, which is pushed onto the player's stack. | Poke also requires a coin in the cache and moves one coin without loss. | not executed | `Game.PokeAsWrittenPushesUndefined` | `Game.Game.Poke` |
