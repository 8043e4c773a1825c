/**
  The board: a registry that hands out one canonical Cell object per tile,
  the map-space rectangle of a tile, and the search for the tiles around a
  point.
 */
module Board {
  import opened Decimal
  import opened Grid

  /** A tile of the board; the registry keeps exactly one such object per (i, j). */
  class Cell {
    const i: int
    const j: int

    constructor (i: int, j: int)
      ensures this.i == i && this.j == j
    {
      this.i := i;
      this.j := j;
    }

    function Loc(): (t: Location)
      ensures t.i == i && t.j == j
    {
      Location(i, j)
    }
  }

  /** A map point. Only integral coordinates reach the board in this game. */
  datatype LatLng = LatLng(lat: int, lng: int)

  /** A map-space point with real coordinates, and an axis-aligned rectangle. */
  datatype Point = Point(lat: real, lng: real)
  datatype Bounds = Bounds(southWest: Point, northEast: Point)

  /** The registry key of tile (i, j): the text of the array [i, j], "i,j". */
  function Key(i: int, j: int): string {
    IntStr(i) + ("," + IntStr(j))
  }

  /** A key holds exactly one comma, right after the text of i, so the comma splits it into its two parts. */
  lemma KeyComma(i: int, j: int)
    ensures |IntStr(i)| < |Key(i, j)| && Key(i, j)[|IntStr(i)|] == ','
    ensures forall n :: 0 <= n < |Key(i, j)| && n != |IntStr(i)| ==> Key(i, j)[n] != ','
  {
    IntStrChars(i);
    IntStrChars(j);
  }

  /** Distinct tiles never share a registry key. */
  lemma KeyInjective(i1: int, j1: int, i2: int, j2: int)
    requires Key(i1, j1) == Key(i2, j2)
    ensures i1 == i2 && j1 == j2
  {
    ParseIntOfIntStr(i1, "," + IntStr(j1));
    ParseIntOfIntStr(i2, "," + IntStr(j2));
    assert ("," + IntStr(j1))[1..] == IntStr(j1);
    assert ("," + IntStr(j2))[1..] == IntStr(j2);
    IntStrInjective(j1, j2);
  }

  /** The rectangle of a tile: its corners are the tile indices times the tile width. */
  function CellBounds(t: Location, w: real): Bounds {
    Bounds(Point(t.i as real * w, t.j as real * w),
           Point((t.i + 1) as real * w, (t.j + 1) as real * w))
  }

  /** Every side of a tile's rectangle is one tile width long. */
  lemma BoundsSide(t: Location, w: real)
    ensures CellBounds(t, w).northEast.lat - CellBounds(t, w).southWest.lat == w
    ensures CellBounds(t, w).northEast.lng - CellBounds(t, w).southWest.lng == w
  {
  }

  /** Neighbouring tiles share their common edge. */
  lemma BoundsAdjacent(t: Location, w: real)
    ensures CellBounds(t, w).northEast.lat == CellBounds(Location(t.i + 1, t.j), w).southWest.lat
    ensures CellBounds(t, w).northEast.lng == CellBounds(Location(t.i, t.j + 1), w).southWest.lng
  {
  }

  /** Whether p lies in a rectangle, its south and west edges included, its north and east edges not. */
  predicate InHalfOpen(p: Point, b: Bounds) {
    b.southWest.lat <= p.lat < b.northEast.lat && b.southWest.lng <= p.lng < b.northEast.lng
  }

  lemma {:induction false} RowsDisjoint(i1: int, i2: int, w: real, x: real)
    requires w > 0.0 && i1 < i2
    requires i1 as real * w <= x < (i1 + 1) as real * w
    ensures !(i2 as real * w <= x)
  {
    var d := (i2 - (i1 + 1)) as real;
    assert d >= 0.0;
    assert d * w >= 0.0;
    assert i2 as real * w == (i1 + 1) as real * w + d * w;
  }

  /** For a positive width the tiles do not overlap: a point lies in the rectangle of at most one tile. */
  lemma BoundsDisjoint(t1: Location, t2: Location, w: real, p: Point)
    requires w > 0.0
    requires InHalfOpen(p, CellBounds(t1, w)) && InHalfOpen(p, CellBounds(t2, w))
    ensures t1 == t2
  {
    if t1.i < t2.i { RowsDisjoint(t1.i, t2.i, w, p.lat); }
    if t2.i < t1.i { RowsDisjoint(t2.i, t1.i, w, p.lat); }
    if t1.j < t2.j { RowsDisjoint(t1.j, t2.j, w, p.lng); }
    if t2.j < t1.j { RowsDisjoint(t2.j, t1.j, w, p.lng); }
  }

  /** A registry of canonical cells, keyed by the text "i,j". */
  class Board {
    const tileWidth: real
    const tileVisibilityRadius: int
    var knownCells: map<string, Cell>

    /** The tile width is positive, and every stored cell is stored under its own key. */
    ghost predicate Valid()
      reads this
    {
      tileWidth > 0.0 &&
      forall key :: key in knownCells ==> key == Key(knownCells[key].i, knownCells[key].j)
    }

    constructor (tileWidth: real, tileVisibilityRadius: int)
      requires tileWidth > 0.0
      ensures Valid()
      ensures this.tileWidth == tileWidth && this.tileVisibilityRadius == tileVisibilityRadius
      ensures knownCells == map[]
    {
      this.tileWidth := tileWidth;
      this.tileVisibilityRadius := tileVisibilityRadius;
      knownCells := map[];
    }

    /**
      The stored cell for the coordinates of `cell`. The argument is stored only
      when no cell has these coordinates yet; a stored cell is never replaced.
     */
    method GetCanonicalCell(cell: Cell) returns (c: Cell)
      requires Valid()
      modifies this
      ensures Valid()
      ensures c.i == cell.i && c.j == cell.j
      ensures Key(cell.i, cell.j) in knownCells && c == knownCells[Key(cell.i, cell.j)]
      ensures Key(cell.i, cell.j) in old(knownCells) ==>
                knownCells == old(knownCells) && c == old(knownCells)[Key(cell.i, cell.j)]
      ensures Key(cell.i, cell.j) !in old(knownCells) ==>
                knownCells == old(knownCells)[Key(cell.i, cell.j) := cell] && c == cell
    {
      var key := Key(cell.i, cell.j);
      if key !in knownCells {
        knownCells := knownCells[key := cell];
      }
      c := knownCells[key];
      KeyInjective(c.i, c.j, cell.i, cell.j);
    }

    /** The canonical cell at the point's coordinates, taken as they are (no scaling). */
    method GetCellForPoint(point: LatLng) returns (c: Cell)
      requires Valid()
      modifies this
      ensures Valid() && Extends(old(knownCells), knownCells)
      ensures c.i == point.lat && c.j == point.lng
      ensures Key(point.lat, point.lng) in knownCells && c == knownCells[Key(point.lat, point.lng)]
      ensures Key(point.lat, point.lng) in old(knownCells) ==>
                knownCells == old(knownCells) && c == old(knownCells)[Key(point.lat, point.lng)]
      ensures Key(point.lat, point.lng) !in old(knownCells) ==>
                knownCells == old(knownCells)[Key(point.lat, point.lng) := c] && fresh(c)
    {
      var cell := new Cell(point.lat, point.lng);
      c := GetCanonicalCell(cell);
    }

    /**
      The rectangle of a cell: its south-west corner is the cell's indices
      times the tile width, each side is one tile width long, and it holds
      its south-west corner but not its north-east one.
     */
    function GetCellBounds(cell: Cell): (b: Bounds)
      requires Valid()
      reads this
      ensures b.southWest == Point(cell.i as real * tileWidth, cell.j as real * tileWidth)
      ensures b.northEast.lat - b.southWest.lat == tileWidth && b.northEast.lng - b.southWest.lng == tileWidth
      ensures InHalfOpen(b.southWest, b) && !InHalfOpen(b.northEast, b)
    {
      CellBounds(cell.Loc(), tileWidth)
    }

    /**
      The canonical cells of every tile within the visibility radius of the
      point's tile, in each direction and bounds included, row after row.
      The inner loop advances its own counter j (the loop as written advances i;
      see InnerLoopAsWritten).
     */
    method GetCellsNearPoint(point: LatLng) returns (resultCells: seq<Cell>)
      requires Valid()
      modifies this
      ensures Valid() && Extends(old(knownCells), knownCells)
      ensures var r := tileVisibilityRadius;
              CanonicalFor(knownCells, resultCells, Block(point.lat - r, point.lat + r + 1, point.lng - r, point.lng + r + 1))
    {
      var originCell := GetCellForPoint(point);
      var r := tileVisibilityRadius;
      if r < 0 {
        // Both loops run zero times.
        resultCells := [];
        BlockEmpty(point.lat - r, point.lat + r + 1, point.lng - r, point.lng + r + 1);
      } else {
        ghost var known := knownCells;
        resultCells := PushRows(originCell.i, originCell.j, r);
        ExtendsTransitive(old(knownCells), known, knownCells);
      }
    }

    /** The outer loop of GetCellsNearPoint: rows oi - r to oi + r, each over columns oj - r to oj + r. */
    method PushRows(oi: int, oj: int, r: int) returns (resultCells: seq<Cell>)
      requires Valid() && 0 <= r
      modifies this
      ensures Valid() && Extends(old(knownCells), knownCells)
      ensures CanonicalFor(knownCells, resultCells, Block(oi - r, oi + r + 1, oj - r, oj + r + 1))
    {
      resultCells := [];
      var i := -r;
      ghost var row := oi - r;
      while i <= r
        invariant Valid() && Extends(old(knownCells), knownCells)
        invariant -r <= i <= r + 1 && row == oi + i
        invariant CanonicalFor(knownCells, resultCells, Block(oi - r, row, oj - r, oj + r + 1))
        decreases r + 1 - i
      {
        ghost var known := knownCells;
        resultCells := AppendRow(resultCells, oi - r, oi + i, oj, r);
        ExtendsTransitive(old(knownCells), known, knownCells);
        i := i + 1;
        row := row + 1;
      }
      assert row == oi + r + 1;
    }

    /** One pass of the outer loop: appends the canonical cells of row a to those of rows aLo to a - 1. */
    method AppendRow(cells: seq<Cell>, ghost aLo: int, a: int, oj: int, r: int) returns (resultCells: seq<Cell>)
      requires Valid() && 0 <= r && aLo <= a
      requires CanonicalFor(knownCells, cells, Block(aLo, a, oj - r, oj + r + 1))
      modifies this
      ensures Valid() && Extends(old(knownCells), knownCells)
      ensures CanonicalFor(knownCells, resultCells, Block(aLo, a + 1, oj - r, oj + r + 1))
    {
      ghost var known := knownCells;
      var rowCells := PushRow(a, oj, r);
      BlockStep(aLo, a, oj - r, oj + r + 1);
      CanonicalForGrows(known, knownCells, cells, Block(aLo, a, oj - r, oj + r + 1));
      CanonicalForAppend(knownCells, cells, Block(aLo, a, oj - r, oj + r + 1), rowCells, Row(a, oj - r, oj + r + 1));
      resultCells := cells + rowCells;
    }

    /** One step of the inner loop: push the canonical cell of tile (a, b). */
    method PushCanonical(cells: seq<Cell>, ghost tiles: seq<Location>, a: int, b: int)
      returns (resultCells: seq<Cell>)
      requires Valid() && CanonicalFor(knownCells, cells, tiles)
      modifies this
      ensures Valid() && Extends(old(knownCells), knownCells)
      ensures CanonicalFor(knownCells, resultCells, tiles + [Location(a, b)])
    {
      var cell := new Cell(a, b);
      ghost var known := knownCells;
      var c := GetCanonicalCell(cell);
      CanonicalForGrows(known, knownCells, cells, tiles);
      assert Registered(knownCells, c);
      CanonicalForPush(knownCells, cells, tiles, c, Location(a, b));
      resultCells := cells + [c];
    }

    /** The inner loop of GetCellsNearPoint: the canonical cells of row a, columns oj - r to oj + r. */
    method PushRow(a: int, oj: int, r: int) returns (rowCells: seq<Cell>)
      requires Valid() && 0 <= r
      modifies this
      ensures Valid() && Extends(old(knownCells), knownCells)
      ensures CanonicalFor(knownCells, rowCells, Row(a, oj - r, oj + r + 1))
    {
      rowCells := [];
      var j := -r;
      while j <= r
        invariant Valid() && Extends(old(knownCells), knownCells)
        invariant -r <= j <= r + 1
        invariant CanonicalFor(knownCells, rowCells, Row(a, oj - r, oj + j))
        decreases r + 1 - j
      {
        ghost var known := knownCells;
        rowCells := PushCanonical(rowCells, Row(a, oj - r, oj + j), a, oj + j);
        ExtendsTransitive(old(knownCells), known, knownCells);
        RowStep(a, oj - r, oj + j);
        j := j + 1;
      }
    }
  }

  /** Registry m' keeps every entry of registry m. */
  ghost predicate Extends(m: map<string, Cell>, m': map<string, Cell>) {
    forall key :: key in m ==> key in m' && m'[key] == m[key]
  }

  lemma ExtendsTransitive(m0: map<string, Cell>, m1: map<string, Cell>, m2: map<string, Cell>)
    requires Extends(m0, m1) && Extends(m1, m2)
    ensures Extends(m0, m2)
  {
  }

  /** c is the cell registry m holds for c's own coordinates. */
  ghost predicate Registered(m: map<string, Cell>, c: Cell) {
    Key(c.i, c.j) in m && m[Key(c.i, c.j)] == c
  }

  /** The tiles of a list of cells, in order. */
  function Locs(cells: seq<Cell>): (ts: seq<Location>)
    decreases |cells|
  {
    if |cells| == 0 then [] else Locs(cells[..|cells| - 1]) + [cells[|cells| - 1].Loc()]
  }

  /** Every cell of the list is the one registry m holds for its coordinates. */
  ghost predicate AllRegistered(m: map<string, Cell>, cells: seq<Cell>)
    decreases |cells|
  {
    |cells| > 0 ==> AllRegistered(m, cells[..|cells| - 1]) && Registered(m, cells[|cells| - 1])
  }

  /** cells lists, one for one and in order, the canonical cells of registry m for the given tiles. */
  ghost predicate CanonicalFor(m: map<string, Cell>, cells: seq<Cell>, tiles: seq<Location>) {
    Locs(cells) == tiles && AllRegistered(m, cells)
  }

  /** The indexed reading of CanonicalFor. */
  lemma {:induction false} CanonicalForAt(m: map<string, Cell>, cells: seq<Cell>, tiles: seq<Location>)
    requires CanonicalFor(m, cells, tiles)
    ensures |cells| == |tiles|
    ensures forall k :: 0 <= k < |tiles| ==> cells[k].Loc() == tiles[k] && Registered(m, cells[k])
    decreases |cells|
  {
    if |cells| > 0 {
      var n := |cells| - 1;
      CanonicalForAt(m, cells[..n], Locs(cells[..n]));
    }
  }

  lemma CanonicalForPush(m: map<string, Cell>, cells: seq<Cell>, tiles: seq<Location>, c: Cell, t: Location)
    requires CanonicalFor(m, cells, tiles)
    requires c.Loc() == t && Registered(m, c)
    ensures CanonicalFor(m, cells + [c], tiles + [t])
  {
    assert (cells + [c])[..|cells|] == cells;
  }

  lemma {:induction false} LocsAppend(cells: seq<Cell>, more: seq<Cell>)
    ensures Locs(cells + more) == Locs(cells) + Locs(more)
    decreases |more|
  {
    if |more| == 0 {
      assert cells + more == cells;
    } else {
      var n := |more| - 1;
      var all := cells + more;
      LocsAppend(cells, more[..n]);
      assert all[..|all| - 1] == cells + more[..n];
      assert all[|all| - 1] == more[n];
      assert Locs(all) == Locs(cells + more[..n]) + [more[n].Loc()];
    }
  }

  lemma {:induction false} AllRegisteredAppend(m: map<string, Cell>, cells: seq<Cell>, more: seq<Cell>)
    requires AllRegistered(m, cells) && AllRegistered(m, more)
    ensures AllRegistered(m, cells + more)
    decreases |more|
  {
    if |more| == 0 {
      assert cells + more == cells;
    } else {
      var n := |more| - 1;
      var all := cells + more;
      AllRegisteredAppend(m, cells, more[..n]);
      assert all[..|all| - 1] == cells + more[..n];
      assert all[|all| - 1] == more[n];
    }
  }

  lemma CanonicalForAppend(m: map<string, Cell>, cells: seq<Cell>, tiles: seq<Location>,
                           more: seq<Cell>, moreTiles: seq<Location>)
    requires CanonicalFor(m, cells, tiles) && CanonicalFor(m, more, moreTiles)
    ensures CanonicalFor(m, cells + more, tiles + moreTiles)
  {
    LocsAppend(cells, more);
    AllRegisteredAppend(m, cells, more);
  }

  lemma {:induction false} AllRegisteredGrows(m: map<string, Cell>, m': map<string, Cell>, cells: seq<Cell>)
    requires AllRegistered(m, cells) && Extends(m, m')
    ensures AllRegistered(m', cells)
    decreases |cells|
  {
    if |cells| > 0 {
      AllRegisteredGrows(m, m', cells[..|cells| - 1]);
    }
  }

  lemma CanonicalForGrows(m: map<string, Cell>, m': map<string, Cell>, cells: seq<Cell>, tiles: seq<Location>)
    requires CanonicalFor(m, cells, tiles) && Extends(m, m')
    ensures CanonicalFor(m', cells, tiles)
  {
    AllRegisteredGrows(m, m', cells);
  }

  /**
    The state after n passes of the inner loop of the neighbourhood search as
    written, started at offsets (i, j) from the origin tile o: each pass pushes
    the tile at those offsets and advances i, never j.
   */
  function InnerLoopAsWritten(o: Location, i: int, j: int, n: nat): (s: (int, int, seq<Location>))
    ensures s.0 == i + n && s.1 == j
    ensures |s.2| == n && forall k :: 0 <= k < n ==> s.2[k] == Location(o.i + i + k, o.j + j)
    decreases n
  {
    if n == 0 then (i, j, [])
    else
      var p := InnerLoopAsWritten(o, i, j, n - 1);
      (p.0 + 1, p.1, p.2 + [Location(o.i + p.0, o.j + p.1)])
  }

  /**
    As written, once the inner loop is entered (a radius r >= 0) its guard
    j <= r holds after any number of passes, so the loop never exits, and
    after 2r + 2 passes it has pushed a tile outside the neighbourhood.
   */
  lemma InnerLoopAsWrittenNeverExits(o: Location, r: int, n: nat)
    requires r >= 0
    ensures InnerLoopAsWritten(o, -r, -r, n).1 <= r
    ensures |InnerLoopAsWritten(o, -r, -r, n).2| == n
    ensures n == 2 * r + 2 ==>
              Location(o.i + r + 1, o.j - r) in InnerLoopAsWritten(o, -r, -r, n).2
              && Location(o.i + r + 1, o.j - r) !in Block(o.i - r, o.i + r + 1, o.j - r, o.j + r + 1)
  {
    if n == 2 * r + 2 {
      var s := InnerLoopAsWritten(o, -r, -r, n);
      assert s.2[2 * r + 1] == Location(o.i + r + 1, o.j - r);
      BeyondLastRow(o, r);
    }
  }

  /** The tile one row past the last row of the neighbourhood is not in it. */
  lemma BeyondLastRow(o: Location, r: int)
    ensures Location(o.i + r + 1, o.j - r) !in Block(o.i - r, o.i + r + 1, o.j - r, o.j + r + 1)
  {
    BlockMembership(o.i - r, o.i + r + 1, o.j - r, o.j + r + 1, Location(o.i + r + 1, o.j - r));
  }

  /** The corrected search visits (2r + 1)^2 tiles. */
  lemma {:induction false} NearTilesCount(o: Location, r: nat)
    ensures |Block(o.i - r, o.i + r + 1, o.j - r, o.j + r + 1)| == (2 * r + 1) * (2 * r + 1)
  {
    var w := 2 * r + 1;
    BlockSize(o.i - r, o.i + r + 1, o.j - r, o.j + r + 1);
    assert (o.i + r + 1) - (o.i - r) == w && (o.j + r + 1) - (o.j - r) == w;
  }

  /** The corrected search visits no tile twice. */
  lemma {:induction false} NearTilesDistinct(o: Location, r: nat)
    ensures Distinct(Block(o.i - r, o.i + r + 1, o.j - r, o.j + r + 1))
  {
    BlockDistinct(o.i - r, o.i + r + 1, o.j - r, o.j + r + 1);
  }
}
