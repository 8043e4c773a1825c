/**
  The integer tile grid: a tile is addressed by its row i and column j.
  Both loops that walk a square of tiles (the board's neighbourhood search
  and the game's regeneration window) do so row by row, each row column by
  column; Block is that visiting order.
 */
module Grid {

  /** The coordinates of a tile, as a value. */
  datatype Location = Location(i: int, j: int)

  /** The tiles (a, b) for bLo <= b < bHi, in increasing b. */
  function Row(a: int, bLo: int, bHi: int): seq<Location>
    decreases bHi - bLo
  {
    if bHi <= bLo then [] else Row(a, bLo, bHi - 1) + [Location(a, bHi - 1)]
  }

  /** The tiles of rows aLo <= a < aHi and columns bLo <= b < bHi, row after row. */
  function Block(aLo: int, aHi: int, bLo: int, bHi: int): seq<Location>
    decreases aHi - aLo
  {
    if aHi <= aLo then [] else Block(aLo, aHi - 1, bLo, bHi) + Row(aHi - 1, bLo, bHi)
  }

  /** Extending a row by one column appends that column's tile. */
  lemma RowStep(a: int, bLo: int, b: int)
    requires bLo <= b
    ensures Row(a, bLo, b + 1) == Row(a, bLo, b) + [Location(a, b)]
  {
  }

  /** Extending a block by one row appends that row. */
  lemma BlockStep(aLo: int, a: int, bLo: int, bHi: int)
    requires aLo <= a
    ensures Block(aLo, a + 1, bLo, bHi) == Block(aLo, a, bLo, bHi) + Row(a, bLo, bHi)
  {
  }

  /** A block with no rows has no tiles. */
  lemma BlockEmpty(aLo: int, aHi: int, bLo: int, bHi: int)
    requires aHi <= aLo
    ensures Block(aLo, aHi, bLo, bHi) == []
  {
  }

  predicate Distinct<T(==)>(s: seq<T>) {
    forall k1, k2 :: 0 <= k1 < k2 < |s| ==> s[k1] != s[k2]
  }

  lemma {:induction false} RowShape(a: int, bLo: int, bHi: int)
    requires bLo <= bHi
    ensures |Row(a, bLo, bHi)| == bHi - bLo
    ensures forall k :: 0 <= k < bHi - bLo ==> Row(a, bLo, bHi)[k] == Location(a, bLo + k)
    decreases bHi - bLo
  {
    if bLo < bHi {
      RowShape(a, bLo, bHi - 1);
    }
  }

  /** A block holds one tile per (row, column) pair. */
  lemma {:induction false} BlockSize(aLo: int, aHi: int, bLo: int, bHi: int)
    requires aLo <= aHi && bLo <= bHi
    ensures |Block(aLo, aHi, bLo, bHi)| == (aHi - aLo) * (bHi - bLo)
    decreases aHi - aLo
  {
    if aLo < aHi {
      BlockSize(aLo, aHi - 1, bLo, bHi);
      RowShape(aHi - 1, bLo, bHi);
      calc {
        |Block(aLo, aHi, bLo, bHi)|;
        (aHi - 1 - aLo) * (bHi - bLo) + (bHi - bLo);
        (aHi - aLo) * (bHi - bLo);
      }
    }
  }

  /** A tile is in the block exactly when its row and column are in range. */
  lemma {:induction false} BlockMembership(aLo: int, aHi: int, bLo: int, bHi: int, t: Location)
    ensures t in Block(aLo, aHi, bLo, bHi) <==> aLo <= t.i < aHi && bLo <= t.j < bHi
    decreases aHi - aLo
  {
    if aLo < aHi {
      BlockMembership(aLo, aHi - 1, bLo, bHi, t);
      if bLo <= bHi {
        RowShape(aHi - 1, bLo, bHi);
        if t.i == aHi - 1 && bLo <= t.j < bHi {
          assert Row(aHi - 1, bLo, bHi)[t.j - bLo] == t;
        }
      } else {
        assert Row(aHi - 1, bLo, bHi) == [];
      }
    }
  }

  /** The walk visits no tile twice. */
  lemma {:induction false} BlockDistinct(aLo: int, aHi: int, bLo: int, bHi: int)
    ensures Distinct(Block(aLo, aHi, bLo, bHi))
    decreases aHi - aLo
  {
    if aLo < aHi {
      var front := Block(aLo, aHi - 1, bLo, bHi);
      var row := Row(aHi - 1, bLo, bHi);
      BlockDistinct(aLo, aHi - 1, bLo, bHi);
      if bLo <= bHi {
        RowShape(aHi - 1, bLo, bHi);
      } else {
        assert row == [];
      }
      forall k | 0 <= k < |front|
        ensures front[k].i < aHi - 1
      {
        BlockMembership(aLo, aHi - 1, bLo, bHi, front[k]);
      }
      var s := front + row;
      forall k1, k2 | 0 <= k1 < k2 < |s|
        ensures s[k1] != s[k2]
      {
        if k2 < |front| {
          assert s[k1] == front[k1] && s[k2] == front[k2];
        } else if k1 < |front| {
          assert s[k1] == front[k1] && s[k2] == row[k2 - |front|];
        } else {
          assert s[k1] == row[k1 - |front|] && s[k2] == row[k2 - |front|];
        }
      }
    }
  }
}
