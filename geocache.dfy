/**
  A geocache: a description and a stack of coins, both drawn from the luck
  of its tile when it is built, and the memento that saves and restores the
  coins.
 */
module Geocache {
  import opened Wrappers
  import opened Grid
  import opened Geocoins
  import opened Memento
  import opened Board

  /**
    The game's source of pseudo-randomness: a fixed function from a text to
    a number in [0, 1). Its implementation is not part of this model.
   */
  ghost predicate LuckInRange(luck: string -> real) {
    forall s :: 0.0 <= luck(s) < 1.0
  }

  /** Math.floor(x * n): a luck value scaled to an index below n. */
  function Scaled(x: real, n: nat): (k: int)
    requires 0.0 <= x < 1.0 && n > 0
    ensures 0 <= k < n
  {
    assert 0.0 <= x * n as real < n as real by {
      assert x * n as real <= x * n as real + (1.0 - x) * n as real;
    }
    (x * n as real).Floor
  }

  /** The text of the array [tag, i, j]: "tag,i,j". */
  function TaggedKey(tag: string, t: Location): string {
    tag + "," + Key(t.i, t.j)
  }

  const Adjectives: seq<string> := ["lucky", "ominous", "whimsical", "superb"]
  const Nouns: seq<string> := ["bucket", "targeocache", "slab", "receptacle", "platform", "pot"]

  /** The description of the cache at t: an adjective and a noun, each chosen by luck. */
  function Description(luck: string -> real, t: Location): (d: string)
    requires LuckInRange(luck)
    ensures exists x, y :: 0 <= x < |Adjectives| && 0 <= y < |Nouns| && d == Adjectives[x] + " " + Nouns[y]
  {
    Adjectives[Scaled(luck(TaggedKey("descA", t)), |Adjectives|)] + " "
      + Nouns[Scaled(luck(TaggedKey("descB", t)), |Nouns|)]
  }

  /** How many coins a new cache at t holds: zero, one or two. (The tag is spelled as in the game.) */
  function InitialCoinCount(luck: string -> real, t: Location): (n: nat)
    requires LuckInRange(luck)
    ensures n <= 2
  {
    Scaled(luck(TaggedKey("intialCoins", t)), 3)
  }

  /** The coins minted at t with serial numbers 0 to n - 1, in that order. */
  function Minted(t: Location, n: nat): seq<Geocoin>
    decreases n
  {
    if n == 0 then [] else Minted(t, n - 1) + [Geocoin(t, n - 1)]
  }

  /** Coin k of Minted(t, n) was minted at t with serial number k. */
  lemma {:induction false} MintedAt(t: Location, n: nat)
    ensures |Minted(t, n)| == n
    ensures forall k :: 0 <= k < n ==> Minted(t, n)[k] == Geocoin(t, k)
    decreases n
  {
    if n > 0 {
      MintedAt(t, n - 1);
    }
  }

  class Geocache {
    var coins: seq<Geocoin>
    var description: string

    /** A new cache at the cell: its description and its initial coins, serial numbers 0 up. */
    constructor (cell: Cell, luck: string -> real)
      requires LuckInRange(luck)
      ensures description == Description(luck, cell.Loc())
      ensures coins == Minted(cell.Loc(), InitialCoinCount(luck, cell.Loc()))
    {
      var t := cell.Loc();
      description := Description(luck, t);
      var numInitialCoins := InitialCoinCount(luck, t);
      var cs: seq<Geocoin> := [];
      var i := 0;
      while i < numInitialCoins
        invariant 0 <= i <= numInitialCoins
        invariant cs == Minted(t, i)
      {
        cs := cs + [Geocoin(t, i)];
        i := i + 1;
      }
      coins := cs;
    }

    /** The memento of the cache, from which the coins are read back as they are. */
    function ToMomento(): (m: string)
      reads this
      ensures Decode(m) == Some(coins)
    {
      DecodeEncode(coins);
      Encode(coins)
    }

    /**
      Restores the coins from a memento. A text that is not a memento leaves
      the cache as it is (the game's JSON.parse would throw before assigning).
     */
    method FromMomento(momento: string)
      modifies this
      ensures Decode(momento).Some? ==> coins == Decode(momento).value && ToMomento() == momento
      ensures Decode(momento).None? ==> coins == old(coins)
      ensures description == old(description)
    {
      var r := Decode(momento);
      if r.Some? {
        coins := r.value;
        EncodeDecode(momento);
      }
    }
  }
}
