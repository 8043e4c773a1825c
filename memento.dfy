/**
  The memento of a geocache: the JSON text of its coin list (RFC 8259,
  section 4 for objects, section 5 for arrays, section 6 for numbers) in the
  one shape JSON.stringify gives such a list,
    [{"mintingLocation":{"i":I,"j":J},"serialNumber":N},...]
  with no white space. The decoder reads exactly these texts.
 */
module Memento {
  import opened Wrappers
  import opened Decimal
  import opened Grid
  import opened Geocoins
  import opened Seqs

  const OpenCoin: string := "{\"mintingLocation\":{\"i\":"
  const BeforeJ: string := ",\"j\":"
  const BeforeSerial: string := "},\"serialNumber\":"
  const CloseCoin: string := "}"

  /** The JSON object of coin c, followed by the text rest. */
  function CoinThen(c: Geocoin, rest: string): string {
    OpenCoin + (IntStr(c.mintingLocation.i) + (BeforeJ + (IntStr(c.mintingLocation.j) +
      (BeforeSerial + (IntStr(c.serialNumber) + (CloseCoin + rest))))))
  }

  /** The elements of a non-empty JSON array of coins, with the closing bracket. */
  function Elements(cs: seq<Geocoin>): string
    requires |cs| > 0
    decreases |cs|
  {
    CoinThen(cs[0], if |cs| == 1 then "]" else "," + Elements(cs[1..]))
  }

  /** JSON.stringify of a coin list. */
  function Encode(cs: seq<Geocoin>): (m: string)
    ensures |m| >= 2 && m[0] == '['
    ensures m == "[]" <==> |cs| == 0
  {
    if |cs| == 0 then "[]" else "[" + Elements(cs)
  }

  /** The text after prefix p, if s starts with p. */
  function Strip(s: string, p: string): (r: Option<string>)
    ensures r.Some? ==> s == p + r.value
  {
    if p <= s then Some(s[|p|..]) else None
  }

  /** Reads one coin object; yields the coin and the rest of the text. */
  function DecodeCoin(s: string): (r: Option<(Geocoin, string)>)
    ensures r.Some? ==> |r.value.1| < |s|
  {
    var a :- Strip(s, OpenCoin);
    var pi :- ParseInt(a);
    var b :- Strip(pi.1, BeforeJ);
    var pj :- ParseInt(b);
    var c :- Strip(pj.1, BeforeSerial);
    var ps :- ParseInt(c);
    var d :- Strip(ps.1, CloseCoin);
    Some((Geocoin(Location(pi.0, pj.0), ps.0), d))
  }

  /** Reads the elements of a non-empty array and its closing bracket, which must end the text. */
  function DecodeElements(s: string): (r: Option<seq<Geocoin>>)
    ensures r.Some? ==> |r.value| > 0
    decreases |s|
  {
    var p :- DecodeCoin(s);
    if p.1 == "]" then Some([p.0])
    else if |p.1| > 0 && p.1[0] == ',' then
      var more :- DecodeElements(p.1[1..]);
      Some([p.0] + more)
    else None
  }

  /** JSON.parse of a memento; None for any text not of the shape Encode writes. */
  function Decode(m: string): (r: Option<seq<Geocoin>>)
    ensures r == Some([]) <==> m == "[]"
    ensures r.Some? ==> |m| > 0 && m[0] == '['
  {
    if m == "[]" then Some([])
    else if |m| > 0 && m[0] == '[' then DecodeElements(m[1..])
    else None
  }

  lemma StripOf(p: string, x: string)
    ensures Strip(p + x, p) == Some(x)
  {
    assert (p + x)[..|p|] == p;
    assert (p + x)[|p|..] == x;
  }

  /** No digit follows a number in the text of a coin. */
  lemma AfterNumber(p: string, x: string)
    requires |p| > 0 && !IsDigit(p[0])
    ensures !IsDigit((p + x)[0])
  {
  }

  /** A coin object is read back as that coin, and the text after it is left. */
  lemma DecodeCoinThen(c: Geocoin, rest: string)
    ensures DecodeCoin(CoinThen(c, rest)) == Some((c, rest))
  {
    var i, j, n := c.mintingLocation.i, c.mintingLocation.j, c.serialNumber;
    var t5 := CloseCoin + rest;
    var t4 := IntStr(n) + t5;
    var t3 := BeforeSerial + t4;
    var t2 := IntStr(j) + t3;
    var t1 := BeforeJ + t2;
    var t0 := IntStr(i) + t1;
    StripOf(OpenCoin, t0);
    AfterNumber(BeforeJ, t2);
    ParseIntOfIntStr(i, t1);
    StripOf(BeforeJ, t2);
    AfterNumber(BeforeSerial, t4);
    ParseIntOfIntStr(j, t3);
    StripOf(BeforeSerial, t4);
    AfterNumber(CloseCoin, rest);
    ParseIntOfIntStr(n, t5);
    StripOf(CloseCoin, rest);
  }

  lemma DecodeLast(c: Geocoin)
    ensures DecodeElements(CoinThen(c, "]")) == Some([c])
  {
    DecodeCoinThen(c, "]");
  }

  lemma DecodeCons(c: Geocoin, more: string, cs: seq<Geocoin>)
    requires DecodeElements(more) == Some(cs)
    ensures DecodeElements(CoinThen(c, "," + more)) == Some([c] + cs)
  {
    DecodeCoinThen(c, "," + more);
    assert ("," + more)[1..] == more;
  }

  lemma {:induction false} DecodeElementsOf(cs: seq<Geocoin>)
    requires |cs| > 0
    ensures DecodeElements(Elements(cs)) == Some(cs)
    decreases |cs|
  {
    if |cs| == 1 {
      assert Elements(cs) == CoinThen(cs[0], "]");
      DecodeLast(cs[0]);
      assert [cs[0]] == cs;
    } else {
      var more := Elements(cs[1..]);
      assert Elements(cs) == CoinThen(cs[0], "," + more);
      DecodeElementsOf(cs[1..]);
      DecodeCons(cs[0], more, cs[1..]);
      FirstAndRest(cs);
    }
  }

  /** fromMomento(toMomento()) restores the coin list: same coins, same order. */
  lemma DecodeEncode(cs: seq<Geocoin>)
    ensures Decode(Encode(cs)) == Some(cs)
  {
    if |cs| > 0 {
      var m := Encode(cs);
      assert m[1..] == Elements(cs);
      assert m[1] == '{';
      DecodeElementsOf(cs);
    }
  }

  /** The decoder accepts only its own texts: what it consumed is the object of what it read. */
  lemma DecodeCoinCanonical(s: string)
    requires DecodeCoin(s).Some?
    ensures s == CoinThen(DecodeCoin(s).value.0, DecodeCoin(s).value.1)
  {
    var a := Strip(s, OpenCoin).value;
    ParseIntCanonical(a);
    var pi := ParseInt(a).value;
    var b := Strip(pi.1, BeforeJ).value;
    ParseIntCanonical(b);
    var pj := ParseInt(b).value;
    var c := Strip(pj.1, BeforeSerial).value;
    ParseIntCanonical(c);
    var ps := ParseInt(c).value;
    var d := Strip(ps.1, CloseCoin).value;
    assert DecodeCoin(s) == Some((Geocoin(Location(pi.0, pj.0), ps.0), d));
  }

  lemma {:induction false} DecodeElementsCanonical(s: string)
    requires DecodeElements(s).Some?
    ensures |DecodeElements(s).value| > 0 && s == Elements(DecodeElements(s).value)
    decreases |s|
  {
    var p := DecodeCoin(s).value;
    DecodeCoinCanonical(s);
    if p.1 == "]" {
      assert DecodeElements(s) == Some([p.0]);
    } else {
      var t := p.1[1..];
      DecodeElementsCanonical(t);
      var more := DecodeElements(t).value;
      var cs := [p.0] + more;
      assert DecodeElements(s) == Some(cs);
      RestOfCons(p.0, more);
      FirstAndRest(p.1);
    }
  }

  /** toMomento() after fromMomento(m) gives back m, for every m the decoder accepts. */
  lemma EncodeDecode(m: string)
    requires Decode(m).Some?
    ensures Encode(Decode(m).value) == m
  {
    if m != "[]" {
      DecodeElementsCanonical(m[1..]);
      FirstAndRest(m);
    }
  }
}
