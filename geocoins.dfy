/**
  Geocoins and their display text: a coin is minted at a tile and carries
  a serial number; a list of coins is shown as "i:j#s " per coin.
 */
module Geocoins {
  import opened Decimal
  import opened Grid
  import opened Seqs

  /** A coin: the tile it was minted at and its serial number there. */
  datatype Geocoin = Geocoin(mintingLocation: Location, serialNumber: int)

  /** The label of one coin, "i:j#s". */
  function CoinLabel(c: Geocoin): string {
    IntStr(c.mintingLocation.i) + ":" + IntStr(c.mintingLocation.j) + "#" + IntStr(c.serialNumber)
  }

  /** The display text of a coin list: each coin's label followed by one space, in order. */
  function ListStr(coins: seq<Geocoin>): string {
    Joined(Item, coins)
  }

  /** The text one coin adds to the display: its label and a space. */
  function Item(c: Geocoin): string {
    CoinLabel(c) + " "
  }

  /** The texts f gives the elements of xs, one after the other. */
  function Joined<T>(f: T -> string, xs: seq<T>): string
    decreases |xs|
  {
    if |xs| == 0 then "" else Joined(f, xs[..|xs| - 1]) + f(xs[|xs| - 1])
  }

  /** The number of occurrences of c in s. */
  function Count(s: string, c: char): (n: nat)
    ensures n <= |s|
    decreases |s|
  {
    if |s| == 0 then 0
    else Count(s[..|s| - 1], c) + (if s[|s| - 1] == c then 1 else 0)
  }

  /** Builds the display text of a coin list, one coin at a time. */
  method GeocoinListStr(geocoinList: seq<Geocoin>) returns (listStr: string)
    ensures listStr == ListStr(geocoinList)
  {
    listStr := "";
    for k := 0 to |geocoinList|
      invariant listStr == ListStr(geocoinList[..k])
    {
      assert geocoinList[..k + 1][..k] == geocoinList[..k];
      AppendAssoc(listStr, CoinLabel(geocoinList[k]), " ");
      listStr := listStr + CoinLabel(geocoinList[k]);
      listStr := listStr + " ";
    }
    assert geocoinList[..|geocoinList|] == geocoinList;
  }

  lemma {:induction false} JoinedAppend<T>(f: T -> string, a: seq<T>, b: seq<T>)
    ensures Joined(f, a + b) == Joined(f, a) + Joined(f, b)
    decreases |b|
  {
    if |b| == 0 {
      assert a + b == a;
    } else {
      var n := |b| - 1;
      var ab := a + b;
      assert ab[..|ab| - 1] == a + b[..n];
      assert ab[|ab| - 1] == b[n];
      JoinedAppend(f, a, b[..n]);
      AppendAssoc(Joined(f, a), Joined(f, b[..n]), f(b[n]));
    }
  }

  /** The text of two lists one after the other is the text of the first followed by that of the second. */
  lemma ListStrAppend(a: seq<Geocoin>, b: seq<Geocoin>)
    ensures ListStr(a + b) == ListStr(a) + ListStr(b)
  {
    JoinedAppend(Item, a, b);
  }

  /** The empty list is shown as the empty text; a non-empty one ends in a space. */
  lemma ListStrEnds(coins: seq<Geocoin>)
    ensures |coins| == 0 <==> ListStr(coins) == ""
    ensures |coins| > 0 ==> |ListStr(coins)| > 0 && ListStr(coins)[|ListStr(coins)| - 1] == ' '
  {
  }

  lemma {:induction false} CountAppend(s: string, t: string, c: char)
    ensures Count(s + t, c) == Count(s, c) + Count(t, c)
    decreases |t|
  {
    if |t| > 0 {
      var st := s + t;
      CountAppend(s, t[..|t| - 1], c);
      assert st[..|st| - 1] == s + t[..|t| - 1];
      assert st[|st| - 1] == t[|t| - 1];
    } else {
      assert s + t == s;
    }
  }

  lemma {:induction false} CountAbsent(s: string, c: char)
    requires forall k :: 0 <= k < |s| ==> s[k] != c
    ensures Count(s, c) == 0
    decreases |s|
  {
    if |s| > 0 {
      CountAbsent(s[..|s| - 1], c);
    }
  }

  /** A coin label holds no space. */
  lemma LabelHasNoSpace(c: Geocoin)
    ensures Count(CoinLabel(c), ' ') == 0
  {
    var a, b, d := IntStr(c.mintingLocation.i), IntStr(c.mintingLocation.j), IntStr(c.serialNumber);
    IntStrChars(c.mintingLocation.i);
    IntStrChars(c.mintingLocation.j);
    IntStrChars(c.serialNumber);
    var s := a + ":" + b + "#" + d;
    forall k | 0 <= k < |s|
      ensures s[k] != ' '
    {
      if k < |a| {
        assert s[k] == a[k];
      } else if k == |a| {
        assert s[k] == ':';
      } else if k < |a| + 1 + |b| {
        assert s[k] == b[k - |a| - 1];
      } else if k == |a| + 1 + |b| {
        assert s[k] == '#';
      } else {
        assert s[k] == d[k - |a| - 2 - |b|];
      }
    }
    CountAbsent(s, ' ');
  }

  /** The text holds exactly one space per coin. */
  lemma {:induction false} ListStrSpaces(coins: seq<Geocoin>)
    ensures Count(ListStr(coins), ' ') == |coins|
    decreases |coins|
  {
    if |coins| > 0 {
      var n := |coins| - 1;
      ListStrSpaces(coins[..n]);
      LabelHasNoSpace(coins[n]);
      CountAppend(ListStr(coins[..n]), Item(coins[n]), ' ');
      CountAppend(CoinLabel(coins[n]), " ", ' ');
      assert Count(" ", ' ') == Count("", ' ') + 1;
    }
  }
}
