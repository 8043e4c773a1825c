/**
  The game state once the map and the page are set aside: the player's stack
  of coins, the table of cache mementos keyed by tile, the popup of each
  cache built (its list of coins on offer and the poke and deposit presses),
  and the regeneration of the caches around the player.
 */
module Game {
  import opened Wrappers
  import opened Seqs
  import opened Grid
  import opened Geocoins
  import opened Memento
  import opened Board
  import opened Geocache

  const TileDegrees: real := 0.0001
  const NeighborhoodSize: int := 8
  const SpawnProbability: real := 0.1

  /** How many coins the popup of the cache at t offers: the luck of [i, j, "initialValue"], scaled to 0 to 9. */
  function OpenValue(luck: string -> real, t: Location): (v: nat)
    requires LuckInRange(luck)
    ensures v <= 9
  {
    Scaled(luck(Key(t.i, t.j) + ",initialValue"), 10)
  }

  function Max(a: int, b: int): int {
    if a < b then b else a
  }

  /** One poke, corrected: the cache's last coin goes on top of the player's stack; an empty cache gives nothing. */
  function PokeStep(player: seq<Geocoin>, coins: seq<Geocoin>): (seq<Geocoin>, seq<Geocoin>) {
    if |coins| == 0 then (player, coins)
    else (player + [coins[|coins| - 1]], coins[..|coins| - 1])
  }

  /** One deposit: the player's top coin goes on top of the cache's coins; an empty stack gives nothing. */
  function DepositStep(player: seq<Geocoin>, coins: seq<Geocoin>): (seq<Geocoin>, seq<Geocoin>) {
    if |player| == 0 then (player, coins)
    else (player[..|player| - 1], coins + [player[|player| - 1]])
  }

  /** A poke moves one coin and loses none: together the two stacks hold the same coins as before. */
  lemma PokeConserves(player: seq<Geocoin>, coins: seq<Geocoin>)
    ensures var (p, c) := PokeStep(player, coins);
            multiset(p) + multiset(c) == multiset(player) + multiset(coins)
    ensures |coins| > 0 ==> |PokeStep(player, coins).0| == |player| + 1 && |PokeStep(player, coins).1| == |coins| - 1
  {
    if |coins| > 0 {
      FrontAndLast(coins);
    }
  }

  /** A deposit moves one coin and loses none. */
  lemma DepositConserves(player: seq<Geocoin>, coins: seq<Geocoin>)
    ensures var (p, c) := DepositStep(player, coins);
            multiset(p) + multiset(c) == multiset(player) + multiset(coins)
    ensures |player| > 0 ==> |DepositStep(player, coins).0| == |player| - 1 && |DepositStep(player, coins).1| == |coins| + 1
  {
    if |player| > 0 {
      FrontAndLast(player);
    }
  }

  /** A deposit right after a poke that took a coin puts that coin back: both stacks are as they were. */
  lemma DepositUndoesPoke(player: seq<Geocoin>, coins: seq<Geocoin>)
    requires |coins| > 0
    ensures DepositStep(PokeStep(player, coins).0, PokeStep(player, coins).1) == (player, coins)
  {
    var x := coins[|coins| - 1];
    assert (player + [x])[..|player|] == player;
    FrontAndLast(coins);
  }

  /** A poke right after a deposit takes back the deposited coin. */
  lemma PokeUndoesDeposit(player: seq<Geocoin>, coins: seq<Geocoin>)
    requires |player| > 0
    ensures PokeStep(DepositStep(player, coins).0, DepositStep(player, coins).1) == (player, coins)
  {
    var x := player[|player| - 1];
    assert (coins + [x])[..|coins|] == coins;
    FrontAndLast(player);
  }

  /** What the poke handler as written holds in a stack: a coin, or the undefined that pop() gives on an empty array. */
  datatype Slot = Coin(coin: Geocoin) | Undefined

  /** The poke handler as written: guarded by the popup's list only, it pops the cache's coins even when they are empty. */
  function PokeAsWritten(player: seq<Slot>, coins: seq<Slot>, listed: nat): (r: (seq<Slot>, seq<Slot>))
    ensures listed == 0 ==> r == (player, coins)
    ensures listed > 0 ==> |r.0| == |player| + 1
    ensures listed > 0 && |coins| > 0 ==>
              multiset(r.0) + multiset(r.1) == multiset(player) + multiset(coins)
    ensures listed > 0 && |coins| == 0 ==>
              multiset(r.0) + multiset(r.1) == multiset(player) + multiset(coins) + multiset{Undefined}
  {
    if listed == 0 then (player, coins)
    else if |coins| == 0 then (player + [Undefined], coins)
    else
      FrontAndLast(coins);
      (player + [coins[|coins| - 1]], coins[..|coins| - 1])
  }

  /**
    As written, poking an empty cache whose popup lists coins grows the
    player's stack by an undefined entry: the count shown goes up by one,
    though no coin moved.
   */
  lemma PokeAsWrittenPushesUndefined(player: seq<Slot>, listed: nat)
    requires listed > 0
    ensures PokeAsWritten(player, [], listed).0 == player + [Undefined]
    ensures multiset(PokeAsWritten(player, [], listed).0) != multiset(player)
  {
    assert Undefined in multiset(player + [Undefined]);
    assert multiset(player + [Undefined]) == multiset(player) + multiset{Undefined};
  }

  /** Whether a cache spawns at tile t: the luck of its key "i,j" is below the spawn probability. */
  ghost predicate Spawning(luck: string -> real, t: Location) {
    luck(Key(t.i, t.j)) < SpawnProbability
  }

  /** The spawn test, as a function of the tile. */
  ghost function SpawnTest(luck: string -> real): Location -> bool {
    t => Spawning(luck, t)
  }

  /** The tiles of ts at which a cache spawns, in order. */
  ghost function Spawns(luck: string -> real, ts: seq<Location>): seq<Location> {
    Filter(SpawnTest(luck), ts)
  }

  /** The coin lists of the caches after one is built at t: an existing list is kept, a new cache's coins are added. */
  function Recorded(luck: string -> real, cm: map<Location, seq<Geocoin>>, t: Location): map<Location, seq<Geocoin>>
    requires LuckInRange(luck)
  {
    if t in cm then cm else cm[t := Minted(t, InitialCoinCount(luck, t))]
  }

  /** The coin lists of the caches after caches are built at the tiles ts, in order. */
  function RecordAll(luck: string -> real, cm: map<Location, seq<Geocoin>>, ts: seq<Location>): map<Location, seq<Geocoin>>
    requires LuckInRange(luck)
    decreases |ts|
  {
    if |ts| == 0 then cm else Recorded(luck, RecordAll(luck, cm, ts[..|ts| - 1]), ts[|ts| - 1])
  }

  /** The memento table holding the coin lists cm: each tile's entry is the JSON text of its coins. */
  function Mementos(cm: map<Location, seq<Geocoin>>): (m: map<Location, string>)
    ensures m.Keys == cm.Keys
  {
    map t | t in cm :: Encode(cm[t])
  }

  /** Every entry of the table reads back as the coin list it was written from. */
  lemma MementosDecode(cm: map<Location, seq<Geocoin>>, t: Location)
    requires t in cm
    ensures Decode(Mementos(cm)[t]) == Some(cm[t])
  {
    DecodeEncode(cm[t]);
  }

  /** Recording one cache's coins changes that tile's entry of the table and no other. */
  lemma MementosUpdate(cm: map<Location, seq<Geocoin>>, t: Location, cs: seq<Geocoin>)
    ensures Mementos(cm[t := cs]) == Mementos(cm)[t := Encode(cs)]
  {
  }

  /** The tiles of a list of popups, in order. */
  function PopupLocs(ps: seq<CachePopup>): seq<Location>
    decreases |ps|
  {
    if |ps| == 0 then [] else PopupLocs(ps[..|ps| - 1]) + [ps[|ps| - 1].loc]
  }

  /**
    Every popup of ps is as a fresh build leaves it: nothing on offer yet,
    and its cache holds the coins cm records for its tile.
   */
  ghost predicate Ready(ps: seq<CachePopup>, cm: map<Location, seq<Geocoin>>)
    reads ps, set p | p in ps :: p.cache
  {
    forall p :: p in ps ==> ReadyPopup(p, cm)
  }

  ghost predicate ReadyPopup(p: CachePopup, cm: map<Location, seq<Geocoin>>)
    reads p, p.cache
  {
    p.cellList == [] && p.Valid() && p.loc in cm && p.cache.coins == cm[p.loc]
  }

  /** Building one more cache keeps every recorded coin list, so popups stay ready. */
  lemma ReadyRecorded(luck: string -> real, ps: seq<CachePopup>, cm: map<Location, seq<Geocoin>>, t: Location)
    requires LuckInRange(luck) && Ready(ps, cm)
    ensures Ready(ps, Recorded(luck, cm, t))
  {
  }

  /** Building caches at a list of tiles keeps every recorded coin list, so popups stay ready. */
  lemma ReadyRecordAll(luck: string -> real, ps: seq<CachePopup>, cm: map<Location, seq<Geocoin>>, ts: seq<Location>)
    requires LuckInRange(luck) && Ready(ps, cm)
    ensures Ready(ps, RecordAll(luck, cm, ts))
  {
    forall p | p in ps
      ensures p.loc in RecordAll(luck, cm, ts) && RecordAll(luck, cm, ts)[p.loc] == cm[p.loc]
    {
      RecordAllKeys(luck, cm, ts, p.loc);
    }
  }

  lemma ReadyPush(ps: seq<CachePopup>, p: CachePopup, cm: map<Location, seq<Geocoin>>)
    requires Ready(ps, cm) && ReadyPopup(p, cm)
    ensures Ready(ps + [p], cm)
  {
  }

  lemma ReadyAppend(ps: seq<CachePopup>, qs: seq<CachePopup>, cm: map<Location, seq<Geocoin>>)
    requires Ready(ps, cm) && Ready(qs, cm)
    ensures Ready(ps + qs, cm)
  {
  }

  /** The tiles visited around the player's tile (pi, pj): offsets -8 to 7 on both axes, row after row. */
  function Window(pi: int, pj: int): seq<Location> {
    Block(pi - NeighborhoodSize, pi + NeighborhoodSize, pj - NeighborhoodSize, pj + NeighborhoodSize)
  }

  /** The popup of one cache: the list of coins it offers and the count drawn when it opens. */
  class CachePopup {
    const loc: Location
    const cache: Geocache
    var cellList: seq<Geocoin>
    var value: int

    /** The list holds the coins minted at the tile with serial numbers 0 up, without gaps. */
    ghost predicate Valid()
      reads this
    {
      cellList == Minted(loc, |cellList|)
    }

    constructor (loc: Location, cache: Geocache)
      ensures this.loc == loc && this.cache == cache
      ensures cellList == [] && value == 0 && Valid()
    {
      this.loc := loc;
      this.cache := cache;
      cellList := [];
      value := 0;
    }

    /**
      Opening the popup: the count is drawn, and each serial number below it
      not yet listed at its own position is added. The list becomes the first
      max(old length, count) minted coins; opening again adds nothing.
     */
    method Open(luck: string -> real)
      requires LuckInRange(luck) && Valid()
      modifies this
      ensures Valid()
      ensures value == OpenValue(luck, loc)
      ensures cellList == Minted(loc, Max(|old(cellList)|, value))
      ensures |old(cellList)| >= value ==> cellList == old(cellList)
    {
      value := OpenValue(luck, loc);
      ghost var n0 := |cellList|;
      var s := 0;
      while s < value
        invariant value == OpenValue(luck, loc) && 0 <= s <= value
        invariant cellList == Minted(loc, Max(n0, s))
      {
        MintedAt(loc, Max(n0, s));
        if !(s < |cellList| && cellList[s].serialNumber == s) {
          cellList := cellList + [Geocoin(loc, s)];
        }
        s := s + 1;
      }
      MintedAt(loc, Max(n0, value));
    }
  }

  class Game {
    const luck: string -> real
    const board: Board
    var geocoinList: seq<Geocoin>
    var geocachePopup: map<Location, string>
    /** The coin list each memento of the table holds. */
    ghost var coinsAt: map<Location, seq<Geocoin>>

    ghost predicate Valid()
      reads this, board
    {
      LuckInRange(luck) && board.Valid() && geocachePopup == Mementos(coinsAt)
    }

    constructor (luck: string -> real)
      requires LuckInRange(luck)
      ensures Valid() && fresh(board)
      ensures board.tileWidth == TileDegrees && board.tileVisibilityRadius == NeighborhoodSize
      ensures board.knownCells == map[]
      ensures this.luck == luck && geocoinList == [] && geocachePopup == map[]
    {
      this.luck := luck;
      board := new Board(TileDegrees, NeighborhoodSize);
      geocoinList := [];
      geocachePopup := map[];
      coinsAt := map[];
    }

    /**
      Builds the cache at tile (i, j). If the table holds a memento for the
      tile, the coins are restored from it and the table is left as it was
      (building the same cache again changes nothing); otherwise the new
      cache's memento is recorded.
     */
    method MakeGeocache(i: int, j: int) returns (p: CachePopup)
      requires Valid()
      modifies this, board
      ensures Valid()
      ensures fresh(p) && fresh(p.cache) && p.loc == Location(i, j) && p.cellList == [] && p.Valid()
      ensures coinsAt == Recorded(luck, old(coinsAt), Location(i, j))
      ensures p.cache.coins == coinsAt[Location(i, j)]
      ensures geocachePopup == old(geocachePopup)[Location(i, j) := Encode(p.cache.coins)]
      ensures Location(i, j) in old(geocachePopup) ==> geocachePopup == old(geocachePopup)
      ensures geocoinList == old(geocoinList)
      ensures Extends(old(board.knownCells), board.knownCells)
      ensures Key(i, j) in board.knownCells && board.knownCells[Key(i, j)].Loc() == p.loc
    {
      var geocacheCell := board.GetCellForPoint(LatLng(i, j));
      var t := geocacheCell.Loc();
      assert t == Location(i, j);
      var newGeocacheCell := new Geocache(geocacheCell, luck);
      ghost var cm, gp := coinsAt, geocachePopup;
      if t in geocachePopup {
        RestoreMemento(t, newGeocacheCell);
        UpdateSame(cm, t);
        UpdateSame(gp, t);
      } else {
        SaveMemento(t, newGeocacheCell);
        UpdateTwice(cm, t, newGeocacheCell.coins, newGeocacheCell.coins);
      }
      SaveMemento(t, newGeocacheCell);
      p := new CachePopup(t, newGeocacheCell);
    }

    /** Records the memento of cache g as the table's entry for tile t. */
    method SaveMemento(t: Location, g: Geocache)
      requires Valid()
      modifies this
      ensures Valid() && coinsAt == old(coinsAt)[t := g.coins]
      ensures geocachePopup == old(geocachePopup)[t := Encode(g.coins)] && geocoinList == old(geocoinList)
    {
      MementosUpdate(coinsAt, t, g.coins);
      geocachePopup := geocachePopup[t := g.ToMomento()];
      coinsAt := coinsAt[t := g.coins];
    }

    /** Restores cache g from the table's entry for tile t: its coins become those the entry was written from. */
    method RestoreMemento(t: Location, g: Geocache)
      requires Valid() && t in geocachePopup
      modifies g
      ensures g.coins == coinsAt[t] && g.description == old(g.description)
    {
      MementosDecode(coinsAt, t);
      g.FromMomento(geocachePopup[t]);
    }

    /**
      The poke button, corrected: when the popup lists coins and the cache
      has one, its last coin moves onto the player's stack and the cache's
      memento is recorded again; otherwise nothing changes.
     */
    method Poke(p: CachePopup)
      requires Valid()
      modifies this, p, p.cache
      ensures Valid()
      ensures var moves := |old(p.cellList)| > 0 && |old(p.cache.coins)| > 0;
              && (moves ==> (geocoinList, p.cache.coins) == PokeStep(old(geocoinList), old(p.cache.coins))
                            && coinsAt == old(coinsAt)[p.loc := p.cache.coins]
                            && geocachePopup == old(geocachePopup)[p.loc := Encode(p.cache.coins)]
                            && p.value == old(p.value) - 1)
              && (!moves ==> geocoinList == old(geocoinList) && p.cache.coins == old(p.cache.coins)
                             && coinsAt == old(coinsAt) && geocachePopup == old(geocachePopup)
                             && p.value == old(p.value))
      ensures p.cellList == old(p.cellList) && p.cache.description == old(p.cache.description)
    {
      if |p.cellList| > 0 && |p.cache.coins| > 0 {
        p.value := p.value - 1;
        var n := |p.cache.coins| - 1;
        geocoinList := geocoinList + [p.cache.coins[n]];
        p.cache.coins := p.cache.coins[..n];
        SaveMemento(p.loc, p.cache);
      }
    }

    /**
      The deposit button: when the player has a coin, the top one moves onto
      the cache's coins and the cache's memento is recorded again; with no
      coin nothing changes.
     */
    method Deposit(p: CachePopup)
      requires Valid()
      modifies this, p.cache
      ensures Valid()
      ensures |old(geocoinList)| > 0 ==>
                (geocoinList, p.cache.coins) == DepositStep(old(geocoinList), old(p.cache.coins))
                && coinsAt == old(coinsAt)[p.loc := p.cache.coins]
                && geocachePopup == old(geocachePopup)[p.loc := Encode(p.cache.coins)]
      ensures |old(geocoinList)| == 0 ==>
                geocoinList == old(geocoinList) && p.cache.coins == old(p.cache.coins)
                && coinsAt == old(coinsAt) && geocachePopup == old(geocachePopup)
      ensures p.cache.description == old(p.cache.description)
    {
      if |geocoinList| == 0 {
        return;
      }
      var n := |geocoinList| - 1;
      p.cache.coins := p.cache.coins + [geocoinList[n]];
      geocoinList := geocoinList[..n];
      SaveMemento(p.loc, p.cache);
    }

    /**
      Builds a cache at every tile of the window around the player's tile
      (pi, pj) where one spawns, and only there, in visiting order.
     */
    method RegenerateCells(pi: int, pj: int) returns (popups: seq<CachePopup>)
      requires Valid()
      modifies this, board
      ensures Valid() && geocoinList == old(geocoinList)
      ensures Extends(old(board.knownCells), board.knownCells)
      ensures PopupLocs(popups) == Spawns(luck, Window(pi, pj))
      ensures coinsAt == RecordAll(luck, old(coinsAt), Spawns(luck, Window(pi, pj)))
      ensures Ready(popups, coinsAt) && forall p :: p in popups ==> fresh(p) && fresh(p.cache)
    {
      popups := [];
      var i := -NeighborhoodSize;
      var playerLat := pi - NeighborhoodSize;
      while i < NeighborhoodSize
        invariant Valid() && geocoinList == old(geocoinList)
        invariant Extends(old(board.knownCells), board.knownCells)
        invariant i <= NeighborhoodSize && playerLat == pi + i && pi - NeighborhoodSize <= playerLat
        invariant PopupLocs(popups) == RowSpawns(luck, pi - NeighborhoodSize, playerLat, pj - NeighborhoodSize, pj + NeighborhoodSize)
        invariant coinsAt == RecordAll(luck, old(coinsAt), PopupLocs(popups))
        invariant Ready(popups, coinsAt) && forall p :: p in popups ==> fresh(p) && fresh(p.cache)
      {
        popups := AppendRegenRow(popups, old(coinsAt), old(board.knownCells), pi - NeighborhoodSize, playerLat, pj);
        i := i + 1;
        playerLat := playerLat + 1;
      }
      WindowDone(luck, pi, pj, playerLat, PopupLocs(popups), old(coinsAt), coinsAt);
    }

    /**
      One pass of the outer loop of RegenerateCells: the caches of row a
      appended to those of rows aLo to a - 1.
     */
    method AppendRegenRow(popups: seq<CachePopup>, ghost cm0: map<Location, seq<Geocoin>>, ghost known0: map<string, Cell>,
                          aLo: int, a: int, pj: int)
      returns (popups': seq<CachePopup>)
      requires Valid() && aLo <= a && Extends(known0, board.knownCells) && Ready(popups, coinsAt)
      requires PopupLocs(popups) == RowSpawns(luck, aLo, a, pj - NeighborhoodSize, pj + NeighborhoodSize)
      requires coinsAt == RecordAll(luck, cm0, PopupLocs(popups))
      modifies this, board
      ensures Valid() && geocoinList == old(geocoinList)
      ensures Extends(known0, board.knownCells)
      ensures PopupLocs(popups') == RowSpawns(luck, aLo, a + 1, pj - NeighborhoodSize, pj + NeighborhoodSize)
      ensures coinsAt == RecordAll(luck, cm0, PopupLocs(popups'))
      ensures Ready(popups', coinsAt)
      ensures forall p :: p in popups' ==> p in popups || (fresh(p) && fresh(p.cache))
    {
      ghost var cmBefore := coinsAt;
      var rowPopups := RegenRow(a, pj);
      ExtendsTransitive(known0, old(board.knownCells), board.knownCells);
      assert Ready(popups, cmBefore);
      ReadyRecordAll(luck, popups, cmBefore, PopupLocs(rowPopups));
      ReadyAppend(popups, rowPopups, coinsAt);
      PopupLocsAppend(popups, rowPopups);
      RecordAllAppend(luck, cm0, PopupLocs(popups), PopupLocs(rowPopups));
      RowSpawnsStep(luck, aLo, a, pj - NeighborhoodSize, pj + NeighborhoodSize);
      popups' := popups + rowPopups;
    }

    /** The inner loop of RegenerateCells: the caches of row a, columns pj - 8 to pj + 7. */
    method RegenRow(a: int, pj: int) returns (rowPopups: seq<CachePopup>)
      requires Valid()
      modifies this, board
      ensures Valid() && geocoinList == old(geocoinList)
      ensures Extends(old(board.knownCells), board.knownCells)
      ensures PopupLocs(rowPopups) == Spawns(luck, Row(a, pj - NeighborhoodSize, pj + NeighborhoodSize))
      ensures coinsAt == RecordAll(luck, old(coinsAt), PopupLocs(rowPopups))
      ensures Ready(rowPopups, coinsAt) && forall p :: p in rowPopups ==> fresh(p) && fresh(p.cache)
    {
      rowPopups := [];
      var j := -NeighborhoodSize;
      var playerLng := pj - NeighborhoodSize;
      ghost var seen: seq<Location> := [];
      while j < NeighborhoodSize
        invariant Valid() && geocoinList == old(geocoinList)
        invariant Extends(old(board.knownCells), board.knownCells)
        invariant -NeighborhoodSize <= j <= NeighborhoodSize && playerLng == pj + j
        invariant seen == Row(a, pj - NeighborhoodSize, playerLng)
        invariant PopupLocs(rowPopups) == Spawns(luck, seen)
        invariant coinsAt == RecordAll(luck, old(coinsAt), PopupLocs(rowPopups))
        invariant Ready(rowPopups, coinsAt) && forall p :: p in rowPopups ==> fresh(p) && fresh(p.cache)
      {
        RowStep(a, pj - NeighborhoodSize, playerLng);
        rowPopups := RegenTile(rowPopups, old(coinsAt), old(board.knownCells), seen, a, playerLng);
        seen := seen + [Location(a, playerLng)];
        j := j + 1;
        playerLng := playerLng + 1;
      }
    }

    /** The body of the inner loop of RegenerateCells: a cache is built at tile (a, b) when one spawns there. */
    method RegenTile(rowPopups: seq<CachePopup>, ghost cm0: map<Location, seq<Geocoin>>, ghost known0: map<string, Cell>,
                     ghost seen: seq<Location>, a: int, b: int)
      returns (rowPopups': seq<CachePopup>)
      requires Valid() && Extends(known0, board.knownCells) && Ready(rowPopups, coinsAt)
      requires PopupLocs(rowPopups) == Spawns(luck, seen)
      requires coinsAt == RecordAll(luck, cm0, PopupLocs(rowPopups))
      modifies this, board
      ensures Valid() && geocoinList == old(geocoinList)
      ensures Extends(known0, board.knownCells)
      ensures PopupLocs(rowPopups') == Spawns(luck, seen + [Location(a, b)])
      ensures coinsAt == RecordAll(luck, cm0, PopupLocs(rowPopups'))
      ensures Ready(rowPopups', coinsAt)
      ensures forall p :: p in rowPopups' ==> p in rowPopups || (fresh(p) && fresh(p.cache))
    {
      var playerLat, playerLng := a, b;
      SpawnsPush(luck, seen, Location(a, b));
      if luck(Key(playerLat, playerLng)) < SpawnProbability {
        rowPopups' := PushGeocache(rowPopups, cm0, known0, playerLat, playerLng);
      } else {
        rowPopups' := rowPopups;
      }
    }

    /** The spawning branch of the inner loop: the cache built at tile (a, b) is added to the row's popups. */
    method PushGeocache(rowPopups: seq<CachePopup>, ghost cm0: map<Location, seq<Geocoin>>, ghost known0: map<string, Cell>,
                        a: int, b: int)
      returns (rowPopups': seq<CachePopup>)
      requires Valid() && Extends(known0, board.knownCells) && Ready(rowPopups, coinsAt)
      requires coinsAt == RecordAll(luck, cm0, PopupLocs(rowPopups))
      modifies this, board
      ensures Valid() && geocoinList == old(geocoinList)
      ensures Extends(known0, board.knownCells)
      ensures PopupLocs(rowPopups') == PopupLocs(rowPopups) + [Location(a, b)]
      ensures coinsAt == RecordAll(luck, cm0, PopupLocs(rowPopups'))
      ensures Ready(rowPopups', coinsAt)
      ensures forall p :: p in rowPopups' ==> p in rowPopups || (fresh(p) && fresh(p.cache))
    {
      ghost var cm := coinsAt;
      var p := MakeGeocache(a, b);
      ExtendsTransitive(known0, old(board.knownCells), board.knownCells);
      assert Ready(rowPopups, cm);
      ReadyRecorded(luck, rowPopups, cm, p.loc);
      ReadyPush(rowPopups, p, coinsAt);
      PopupLocsPush(rowPopups, p);
      RecordAllPush(luck, cm0, PopupLocs(rowPopups), p.loc);
      rowPopups' := rowPopups + [p];
    }
  }

  /** The tiles of rows aLo to aHi - 1 of a block at which a cache spawns, row after row. */
  ghost function RowSpawns(luck: string -> real, aLo: int, aHi: int, bLo: int, bHi: int): seq<Location>
    decreases aHi - aLo
  {
    if aHi <= aLo then [] else RowSpawns(luck, aLo, aHi - 1, bLo, bHi) + Spawns(luck, Row(aHi - 1, bLo, bHi))
  }

  /** The tiles of the window around (pi, pj) at which a cache spawns, taken row by row. */
  ghost function WindowSpawns(luck: string -> real, pi: int, pj: int): seq<Location> {
    RowSpawns(luck, pi - NeighborhoodSize, pi + NeighborhoodSize, pj - NeighborhoodSize, pj + NeighborhoodSize)
  }

  /** Once the rows reach pi + 8, the caches built are those of the whole window, and so are the coin lists recorded. */
  lemma WindowDone(luck: string -> real, pi: int, pj: int, hi: int, locs: seq<Location>,
                   cm0: map<Location, seq<Geocoin>>, cm: map<Location, seq<Geocoin>>)
    requires LuckInRange(luck) && hi == pi + NeighborhoodSize
    requires locs == RowSpawns(luck, pi - NeighborhoodSize, hi, pj - NeighborhoodSize, pj + NeighborhoodSize)
    requires cm == RecordAll(luck, cm0, locs)
    ensures locs == Spawns(luck, Window(pi, pj))
    ensures cm == RecordAll(luck, cm0, Spawns(luck, Window(pi, pj)))
  {
    WindowSpawnsInOrder(luck, pi, pj);
  }

  /** Taken row by row, the tiles where caches spawn are those of the whole window in visiting order. */
  lemma WindowSpawnsInOrder(luck: string -> real, pi: int, pj: int)
    ensures WindowSpawns(luck, pi, pj) == Spawns(luck, Window(pi, pj))
  {
    RowSpawnsOfBlock(luck, pi - NeighborhoodSize, pi + NeighborhoodSize, pj - NeighborhoodSize, pj + NeighborhoodSize);
  }

  lemma RowSpawnsStep(luck: string -> real, aLo: int, a: int, bLo: int, bHi: int)
    requires aLo <= a
    ensures RowSpawns(luck, aLo, a + 1, bLo, bHi) == RowSpawns(luck, aLo, a, bLo, bHi) + Spawns(luck, Row(a, bLo, bHi))
  {
  }

  lemma {:induction false} RowSpawnsOfBlock(luck: string -> real, aLo: int, aHi: int, bLo: int, bHi: int)
    ensures RowSpawns(luck, aLo, aHi, bLo, bHi) == Spawns(luck, Block(aLo, aHi, bLo, bHi))
    decreases aHi - aLo
  {
    if aLo < aHi {
      RowSpawnsOfBlock(luck, aLo, aHi - 1, bLo, bHi);
      SpawnsAppend(luck, Block(aLo, aHi - 1, bLo, bHi), Row(aHi - 1, bLo, bHi));
    }
  }

  lemma SpawnsPush(luck: string -> real, ts: seq<Location>, t: Location)
    ensures Spawns(luck, ts + [t]) == Spawns(luck, ts) + (if Spawning(luck, t) then [t] else [])
  {
    assert (ts + [t])[..|ts|] == ts;
  }

  lemma RecordAllPush(luck: string -> real, cm: map<Location, seq<Geocoin>>, ts: seq<Location>, t: Location)
    requires LuckInRange(luck)
    ensures RecordAll(luck, cm, ts + [t]) == Recorded(luck, RecordAll(luck, cm, ts), t)
  {
    assert (ts + [t])[..|ts|] == ts;
  }

  lemma PopupLocsPush(ps: seq<CachePopup>, p: CachePopup)
    ensures PopupLocs(ps + [p]) == PopupLocs(ps) + [p.loc]
  {
    assert (ps + [p])[..|ps|] == ps;
  }

  lemma {:induction false} PopupLocsAppend(ps: seq<CachePopup>, qs: seq<CachePopup>)
    ensures PopupLocs(ps + qs) == PopupLocs(ps) + PopupLocs(qs)
    decreases |qs|
  {
    if |qs| == 0 {
      assert ps + qs == ps;
    } else {
      var n := |qs| - 1;
      var all := ps + qs;
      assert all[..|all| - 1] == ps + qs[..n];
      assert all[|all| - 1] == qs[n];
      PopupLocsAppend(ps, qs[..n]);
      AppendAssoc(PopupLocs(ps), PopupLocs(qs[..n]), [qs[n].loc]);
    }
  }

  lemma SpawnsAppend(luck: string -> real, ts: seq<Location>, us: seq<Location>)
    ensures Spawns(luck, ts + us) == Spawns(luck, ts) + Spawns(luck, us)
  {
    FilterAppend(SpawnTest(luck), ts, us);
  }

  lemma {:induction false} RecordAllAppend(luck: string -> real, m: map<Location, seq<Geocoin>>, ts: seq<Location>, us: seq<Location>)
    requires LuckInRange(luck)
    ensures RecordAll(luck, m, ts + us) == RecordAll(luck, RecordAll(luck, m, ts), us)
    decreases |us|
  {
    if |us| == 0 {
      assert ts + us == ts;
    } else {
      var n := |us| - 1;
      var all := ts + us;
      assert all[..|all| - 1] == ts + us[..n];
      assert all[|all| - 1] == us[n];
      RecordAllAppend(luck, m, ts, us[..n]);
    }
  }

  /** A cache is built at exactly the tiles of ts where one spawns. */
  lemma SpawnsMembership(luck: string -> real, ts: seq<Location>, t: Location)
    ensures t in Spawns(luck, ts) <==> t in ts && Spawning(luck, t)
  {
    FilterMembership(SpawnTest(luck), ts, t);
  }

  /**
    Building caches at the tiles ts keeps every coin list already recorded
    and adds one for each new tile: the coins of a freshly built cache there.
   */
  lemma {:induction false} RecordAllKeys(luck: string -> real, cm: map<Location, seq<Geocoin>>, ts: seq<Location>, t: Location)
    requires LuckInRange(luck)
    ensures t in RecordAll(luck, cm, ts) <==> t in cm || t in ts
    ensures t in cm ==> RecordAll(luck, cm, ts)[t] == cm[t]
    ensures t !in cm && t in ts ==> RecordAll(luck, cm, ts)[t] == Minted(t, InitialCoinCount(luck, t))
    decreases |ts|
  {
    if |ts| > 0 {
      var n := |ts| - 1;
      RecordAllKeys(luck, cm, ts[..n], t);
      FrontAndLast(ts);
    }
  }

  /** The window holds 16 x 16 = 256 tiles, no tile twice, exactly those at offsets -8 to 7 from the player's. */
  lemma WindowShape(pi: int, pj: int, t: Location)
    ensures |Window(pi, pj)| == 256 && Distinct(Window(pi, pj))
    ensures t in Window(pi, pj) <==> -8 <= t.i - pi < 8 && -8 <= t.j - pj < 8
  {
    BlockSize(pi - 8, pi + 8, pj - 8, pj + 8);
    BlockDistinct(pi - 8, pi + 8, pj - 8, pj + 8);
    BlockMembership(pi - 8, pi + 8, pj - 8, pj + 8, t);
  }
}
