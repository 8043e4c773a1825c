/**
  Decimal text of integers, as JavaScript renders an integral Number when it
  is converted to a string (template literals, `Array.prototype.toString`,
  `JSON.stringify`): an optional '-' followed by digits without leading zeros.
  The parser reads back exactly that text and nothing else.
 */
module Decimal {
  import opened Wrappers

  predicate IsDigit(c: char) {
    '0' <= c <= '9'
  }

  predicate AllDigits(s: string) {
    forall k :: 0 <= k < |s| ==> IsDigit(s[k])
  }

  function DigitChar(d: nat): (c: char)
    requires d < 10
    ensures IsDigit(c)
  {
    ('0' as int + d) as char
  }

  function DigitValue(c: char): (d: nat)
    requires IsDigit(c)
    ensures d < 10 && DigitChar(d) == c
  {
    c as int - '0' as int
  }

  /** Decimal digits of n, most significant first, with no leading zero. */
  function NatStr(n: nat): (s: string)
    ensures |s| >= 1
    ensures |s| == 1 <==> n < 10
    ensures s[0] == '0' <==> n == 0
  {
    if n < 10 then [DigitChar(n)] else NatStr(n / 10) + [DigitChar(n % 10)]
  }

  lemma {:induction false} NatStrDigits(n: nat)
    ensures AllDigits(NatStr(n))
  {
    if n >= 10 {
      NatStrDigits(n / 10);
      var s := NatStr(n);
      assert s == NatStr(n / 10) + [DigitChar(n % 10)];
      forall k | 0 <= k < |s|
        ensures IsDigit(s[k])
      {
        if k < |s| - 1 {
          assert s[k] == NatStr(n / 10)[k];
        }
      }
    }
  }

  /** The text JavaScript produces for the integer n. */
  function IntStr(n: int): (s: string)
    ensures |s| >= 1
    decreases if n < 0 then 1 else 0
  {
    if n < 0 then "-" + IntStr(-n) else NatStr(n)
  }

  /** The text of an integer holds only digits and a minus sign. */
  lemma IntStrChars(n: int)
    ensures forall k :: 0 <= k < |IntStr(n)| ==> IntStr(n)[k] == '-' || IsDigit(IntStr(n)[k])
  {
    if n < 0 {
      NatStrDigits(-n);
      assert forall k :: 1 <= k < |IntStr(n)| ==> IntStr(n)[k] == NatStr(-n)[k - 1];
    } else {
      NatStrDigits(n);
    }
  }

  /** The number a string of digits denotes. */
  function Value(ds: string): nat
    requires AllDigits(ds)
  {
    if |ds| == 0 then 0 else Value(ds[..|ds| - 1]) * 10 + DigitValue(ds[|ds| - 1])
  }

  /** The length of the longest run of digits at the start of s. */
  function DigitRun(s: string): (k: nat)
    ensures k <= |s| && AllDigits(s[..k])
    ensures k < |s| ==> !IsDigit(s[k])
  {
    if |s| == 0 || !IsDigit(s[0]) then 0
    else
      var k := 1 + DigitRun(s[1..]);
      assert s[..k] == [s[0]] + s[1..][..k - 1];
      k
  }

  /** Reads a natural number without leading zeros; yields it and the rest of the text. */
  function ParseNat(s: string): (r: Option<(nat, string)>)
    ensures r.Some? ==> |r.value.1| < |s|
  {
    var k := DigitRun(s);
    if k == 0 || (k > 1 && s[0] == '0') then None
    else Some((Value(s[..k]), s[k..]))
  }

  /** Reads what IntStr writes; "-0" is not such a text and is refused. */
  function ParseInt(s: string): (r: Option<(int, string)>)
    ensures r.Some? ==> |r.value.1| < |s|
  {
    if |s| > 0 && s[0] == '-' then
      var p :- ParseNat(s[1..]);
      var v: int := -(p.0 as int);
      if v == 0 then None else Some((v, p.1))
    else
      var p :- ParseNat(s);
      Some((p.0 as int, p.1))
  }

  lemma {:induction false} ValueOfNatStr(n: nat)
    ensures AllDigits(NatStr(n)) && Value(NatStr(n)) == n
  {
    NatStrDigits(n);
    if n >= 10 {
      var s := NatStr(n);
      assert s[..|s| - 1] == NatStr(n / 10);
      ValueOfNatStr(n / 10);
    }
  }

  lemma {:induction false} DigitRunOfDigits(ds: string, rest: string)
    requires AllDigits(ds)
    requires |rest| == 0 || !IsDigit(rest[0])
    ensures DigitRun(ds + rest) == |ds|
  {
    if |ds| > 0 {
      assert (ds + rest)[1..] == ds[1..] + rest;
      DigitRunOfDigits(ds[1..], rest);
    }
  }

  lemma ParseNatOfNatStr(n: nat, rest: string)
    requires |rest| == 0 || !IsDigit(rest[0])
    ensures ParseNat(NatStr(n) + rest) == Some((n, rest))
  {
    var s := NatStr(n) + rest;
    NatStrDigits(n);
    DigitRunOfDigits(NatStr(n), rest);
    assert s[..|NatStr(n)|] == NatStr(n);
    assert s[|NatStr(n)|..] == rest;
    ValueOfNatStr(n);
  }

  lemma ParseIntOfSigned(t: string)
    requires ParseNat(t).Some? && ParseNat(t).value.0 != 0
    ensures ParseInt("-" + t) == Some((-(ParseNat(t).value.0 as int), ParseNat(t).value.1))
  {
    assert ("-" + t)[0] == '-' && ("-" + t)[1..] == t;
  }

  lemma ParseIntOfNegative(n: int, rest: string)
    requires n < 0
    requires |rest| == 0 || !IsDigit(rest[0])
    ensures ParseInt(IntStr(n) + rest) == Some((n, rest))
  {
    var m: nat := -n;
    var t := NatStr(m) + rest;
    assert IntStr(n) == "-" + NatStr(m);
    PrefixRegroup('-', NatStr(m), rest);
    ParseNatOfNatStr(m, rest);
    ParseIntOfSigned(t);
  }

  lemma PrefixRegroup(c: char, a: string, b: string)
    ensures ([c] + a) + b == [c] + (a + b)
  {
  }

  /** Reading back the text of n yields n and leaves whatever follows it, provided no digit follows. */
  lemma ParseIntOfIntStr(n: int, rest: string)
    requires |rest| == 0 || !IsDigit(rest[0])
    ensures ParseInt(IntStr(n) + rest) == Some((n, rest))
  {
    if n < 0 {
      ParseIntOfNegative(n, rest);
    } else {
      assert (NatStr(n) + rest)[0] == NatStr(n)[0];
      ParseNatOfNatStr(n, rest);
    }
  }

  lemma {:induction false} ValuePositive(ds: string)
    requires |ds| >= 1 && AllDigits(ds) && ds[0] != '0'
    ensures Value(ds) >= 1
  {
    if |ds| > 1 {
      ValuePositive(ds[..|ds| - 1]);
    }
  }

  lemma {:induction false} NatStrOfValue(ds: string)
    requires |ds| >= 1 && AllDigits(ds)
    requires |ds| > 1 ==> ds[0] != '0'
    ensures NatStr(Value(ds)) == ds
  {
    if |ds| > 1 {
      var p := ds[..|ds| - 1];
      ValuePositive(p);
      NatStrOfValue(p);
      assert ds == p + [ds[|ds| - 1]];
    }
  }

  lemma ParseNatCanonical(s: string)
    requires ParseNat(s).Some?
    ensures s == NatStr(ParseNat(s).value.0) + ParseNat(s).value.1
  {
    var k := DigitRun(s);
    NatStrOfValue(s[..k]);
    assert s == s[..k] + s[k..];
  }

  /** ParseInt accepts only the texts IntStr writes: what it consumed is the text of what it read. */
  lemma ParseIntCanonical(s: string)
    requires ParseInt(s).Some?
    ensures s == IntStr(ParseInt(s).value.0) + ParseInt(s).value.1
  {
    if |s| > 0 && s[0] == '-' {
      var t := s[1..];
      var p := ParseNat(t).value;
      assert ParseInt(s) == Some((-(p.0 as int), p.1));
      ParseNatCanonical(t);
      assert s == "-" + t;
      assert IntStr(-(p.0 as int)) == "-" + NatStr(p.0);
      PrefixRegroup('-', NatStr(p.0), p.1);
    } else {
      ParseNatCanonical(s);
    }
  }

  /** Distinct integers have distinct texts. */
  lemma IntStrInjective(a: int, b: int)
    requires IntStr(a) == IntStr(b)
    ensures a == b
  {
    ParseIntOfIntStr(a, "");
    ParseIntOfIntStr(b, "");
    assert IntStr(a) + "" == IntStr(a);
    assert IntStr(b) + "" == IntStr(b);
  }
}
