/**
 * UTF-8 as section 3 of RFC 3629 defines it, read one code point at a time by a strict decoder,
 * and UTF-16 as JavaScript strings hold it.
 */
module Utf8 {
  import opened ByteStrings
  import opened Incremental
  import opened Options

  /** A Unicode scalar value: a code point that is no surrogate. */
  type Scalar = c: int | 0 <= c < 0xD800 || 0xE000 <= c < 0x11_0000

  function EncodeScalar(c: Scalar): (b: Bytes)
    ensures 1 <= |b| <= 4
  {
    var c1 := c / 0x40;
    var c2 := c1 / 0x40;
    if c < 0x80 then [c]
    else if c < 0x800 then [0xC0 + c1, Tail(c)]
    else if c < 0x1_0000 then [0xE0 + c2, Tail(c1), Tail(c)]
    else [0xF0 + c2 / 0x40, Tail(c2), Tail(c1), Tail(c)]
  }

  function Tail(c: nat): Byte {
    0x80 + c % 0x40
  }

  predicate IsTail(b: Byte) {
    0x80 <= b < 0xC0
  }

  function Encode(cs: seq<Scalar>): Bytes {
    if cs == [] then [] else EncodeScalar(cs[0]) + Encode(cs[1..])
  }

  /** The length that the first byte announces; 0 if no code point starts with it. */
  function Announced(b: Byte): nat {
    if b < 0x80 then 1
    else if 0xC2 <= b < 0xE0 then 2
    else if 0xE0 <= b < 0xF0 then 3
    else if 0xF0 <= b < 0xF5 then 4
    else 0
  }

  /** The second byte rules out overlong forms, surrogates and values that are too large. */
  predicate SecondFits(first: Byte, second: Byte) {
    && IsTail(second)
    && (first == 0xE0 ==> second >= 0xA0) && (first == 0xED ==> second < 0xA0)
    && (first == 0xF0 ==> second >= 0x90) && (first == 0xF4 ==> second < 0x90)
  }

  function Value(b: Bytes): int
    requires 1 <= |b| <= 4
  {
    if |b| == 1 then b[0] as int
    else if |b| == 2 then Shifted(b[0] as int - 0xC0, b[1])
    else if |b| == 3 then Shifted(Shifted(b[0] as int - 0xE0, b[1]), b[2])
    else Shifted(Shifted(Shifted(b[0] as int - 0xF0, b[1]), b[2]), b[3])
  }

  function Shifted(high: int, tail: Byte): int {
    high * 0x40 + (tail - 0x80)
  }

  /** One code point at the front of the bytes, refused at the first byte that cannot be part of it. */
  function NextScalar(b: Bytes): Step<Scalar> {
    if |b| == 0 then More
    else
      var n := Announced(b[0]);
      if n == 0 then Bad
      else if n == 1 then Item(1, b[0])
      else if |b| == 1 then More
      else if !SecondFits(b[0], b[1]) then Bad
      else if n == 2 then Item(2, Value(b[..2]))
      else if |b| == 2 then More
      else if !IsTail(b[2]) then Bad
      else if n == 3 then Item(3, Value(b[..3]))
      else if |b| == 3 then More
      else if !IsTail(b[3]) then Bad
      else Item(4, Value(b[..4]))
  }

  function Scalars(): Bytes -> Step<Scalar> {
    b => NextScalar(b)
  }

  lemma ScalarsAreStable()
    ensures Productive(Scalars()) && Stable(Scalars()) && Scalars()([]).More?
  {
    forall a: Bytes, b: Bytes | !NextScalar(a).More?
      ensures NextScalar(a + b) == NextScalar(a)
    {
      hide Value;
      assert |a| >= 2 ==> (a + b)[..2] == a[..2];
      assert |a| >= 3 ==> (a + b)[..3] == a[..3];
      assert |a| >= 4 ==> (a + b)[..4] == a[..4];
    }
  }

  /** What a strict decoder makes of a complete input. */
  function Decode(b: Bytes): Option<seq<Scalar>>
  {
    ScalarsAreStable();
    var d := Drain(Scalars(), b);
    if d.bad || d.rest != [] then None else Some(d.items)
  }

  // ----- Round trip -----

  lemma ScalarReadsBack(c: Scalar, rest: Bytes)
    ensures NextScalar(EncodeScalar(c) + rest) == Item(|EncodeScalar(c)|, c)
  {
    var b := EncodeScalar(c) + rest;
    var n := |EncodeScalar(c)|;
    assert b[..n] == EncodeScalar(c);
    ValueReadsBack(c);
    LeadReadsBack(c);
    hide Value;
  }

  lemma ValueReadsBack(c: Scalar)
    ensures Value(EncodeScalar(c)) == c
  {
  }

  lemma LeadReadsBack(c: Scalar)
    ensures var e := EncodeScalar(c); Announced(e[0]) == |e| && (|e| > 1 ==> SecondFits(e[0], e[1]))
    ensures var e := EncodeScalar(c); forall i :: 0 < i < |e| ==> IsTail(e[i])
  {
  }

  /** A code point cut short asks for more. */
  lemma CutScalarWaits(c: Scalar, n: nat)
    requires n < |EncodeScalar(c)|
    ensures NextScalar(EncodeScalar(c)[..n]).More?
  {
    LeadReadsBack(c);
    hide EncodeScalar;
  }

  lemma {:induction false} EncodeJoin(a: seq<Scalar>, b: seq<Scalar>)
    ensures Encode(a + b) == Encode(a) + Encode(b)
  {
    hide EncodeScalar;
    if a == [] {
      assert a + b == b;
    } else {
      EncodeJoin(a[1..], b);
      assert (a + b)[0] == a[0] && (a + b)[1..] == a[1..] + b;
      AppendAssociates(EncodeScalar(a[0]), Encode(a[1..]), Encode(b));
    }
  }

  /** Whole code points are read off, whatever follows them. */
  lemma {:induction false} EncodedDrains(cs: seq<Scalar>, tail: Bytes)
    ensures Productive(Scalars())
    ensures var d := Drain(Scalars(), tail); Drain(Scalars(), Encode(cs) + tail) == Drained(cs + d.items, d.rest, d.bad)
  {
    hide EncodeScalar;
    hide NextScalar;
    ScalarsAreStable();
    if cs == [] {
      assert Encode(cs) + tail == tail;
    } else {
      var head, rest := EncodeScalar(cs[0]), Encode(cs[1..]) + tail;
      assert Encode(cs) + tail == head + rest && (head + rest)[|head|..] == rest;
      ScalarReadsBack(cs[0], rest);
      assert Scalars()(head + rest) == Item(|head|, cs[0]);
      EncodedDrains(cs[1..], tail);
      AppendAssociates([cs[0]], cs[1..], Drain(Scalars(), tail).items);
      assert cs == [cs[0]] + cs[1..];
    }
  }

  /** The number of whole code points in the first `end` bytes. */
  lemma CutAt(cs: seq<Scalar>, end: nat) returns (k: nat)
    requires end <= |Encode(cs)|
    ensures k <= |cs| && |Encode(cs[..k])| <= end
    ensures k < |cs| ==> end < |Encode(cs[..k + 1])|
    ensures end == |Encode(cs)| <==> k == |cs|
  {
    k := 0;
    while k < |cs| && |Encode(cs[..k + 1])| <= end
      invariant k <= |cs| && |Encode(cs[..k])| <= end
    {
      k := k + 1;
    }
    assert cs[..|cs|] == cs;
    if k < |cs| {
      EncodePrefix(cs, k + 1, |cs|);
    }
  }

  /** The first bytes of an encoding: whole code points and the beginning of another. */
  lemma CutSplits(cs: seq<Scalar>, end: nat, k: nat)
    requires end <= |Encode(cs)| && k <= |cs| && |Encode(cs[..k])| <= end
    requires if k == |cs| then end == |Encode(cs)| else end < |Encode(cs[..k + 1])|
    ensures var n := end - |Encode(cs[..k])|;
      if k == |cs| then n == 0 && Encode(cs)[..end] == Encode(cs[..k]) + []
      else n < |EncodeScalar(cs[k])| && Encode(cs)[..end] == Encode(cs[..k]) + EncodeScalar(cs[k])[..n]
  {
    hide EncodeScalar;
    if k == |cs| {
      assert cs[..k] == cs;
    } else {
      var whole := Encode(cs[..k]);
      EncodeJoin(cs[..k], cs[k..]);
      assert cs[..k] + cs[k..] == cs && cs[k..][0] == cs[k];
      EncodeJoin(cs[..k], [cs[k]]);
      assert cs[..k] + [cs[k]] == cs[..k + 1] && [cs[k]][1..] == [];
      assert Encode([cs[k]]) == EncodeScalar(cs[k]) + Encode([]);
    }
  }

  /** Cut anywhere, an encoding decodes to the code points before the cut and keeps the rest. */
  lemma CutDecodes(cs: seq<Scalar>, end: nat) returns (k: nat)
    requires end <= |Encode(cs)|
    ensures k <= |cs| && |Encode(cs[..k])| <= end
    ensures k < |cs| ==> end < |Encode(cs[..k + 1])|
    ensures end == |Encode(cs)| <==> k == |cs|
    ensures Productive(Scalars())
    ensures var d := Drain(Scalars(), Encode(cs)[..end]);
      d.items == cs[..k] && !d.bad && |d.rest| == end - |Encode(cs[..k])|
  {
    hide EncodeScalar;
    hide NextScalar;
    hide Encode;
    hide Productive;
    hide Stable;
    k := CutAt(cs, end);
    CutSplits(cs, end, k);
    ScalarsAreStable();
    var partial := if k == |cs| then [] else EncodeScalar(cs[k])[..end - |Encode(cs[..k])|];
    if k < |cs| {
      CutScalarWaits(cs[k], |partial|);
    }
    assert Scalars()(partial).More?;
    EncodedDrains(cs[..k], partial);
    assert cs[..k] + [] == cs[..k];
  }

  lemma DecodeEncode(cs: seq<Scalar>)
    ensures Decode(Encode(cs)) == Some(cs)
  {
    var k := CutDecodes(cs, |Encode(cs)|);
    assert Encode(cs)[..|Encode(cs)|] == Encode(cs) && cs[..|cs|] == cs;
  }

  lemma {:induction false} EncodePrefix(cs: seq<Scalar>, j: nat, k: nat)
    requires j <= k <= |cs|
    ensures Encode(cs[..j]) <= Encode(cs[..k]) && |Encode(cs[..j])| + (k - j) <= |Encode(cs[..k])|
  {
    if j > 0 {
      EncodePrefix(cs[1..], j - 1, k - 1);
      assert cs[..j][1..] == cs[1..][..j - 1] && cs[..k][1..] == cs[1..][..k - 1];
    } else {
      EncodeLength(cs[..k]);
    }
  }

  lemma {:induction false} EncodeLength(cs: seq<Scalar>)
    ensures |cs| <= |Encode(cs)|
  {
    if cs != [] {
      EncodeLength(cs[1..]);
    }
  }

  // ----- UTF-16 -----

  type Unit = u: int | 0 <= u < 0x1_0000

  predicate IsHigh(u: Unit) {
    0xD800 <= u < 0xDC00
  }

  predicate IsLow(u: Unit) {
    0xDC00 <= u < 0xE000
  }

  function UnitsOf(c: Scalar): (u: seq<Unit>)
    ensures 1 <= |u| <= 2
  {
    if c < 0x1_0000 then [c] else [0xD800 + (c - 0x1_0000) / 0x400, 0xDC00 + (c - 0x1_0000) % 0x400]
  }

  /** The JavaScript string of these code points. */
  function Units(cs: seq<Scalar>): seq<Unit> {
    if cs == [] then [] else UnitsOf(cs[0]) + Units(cs[1..])
  }

  function Paired(high: Unit, low: Unit): Scalar
    requires IsHigh(high) && IsLow(low)
  {
    0x1_0000 + (high as int - 0xD800) * 0x400 + (low as int - 0xDC00)
  }

  /** The code points of a string, if every surrogate is paired. */
  function CodePoints(s: seq<Unit>): Option<seq<Scalar>> {
    if s == [] then Some([])
    else if IsHigh(s[0]) then
      if |s| < 2 || !IsLow(s[1]) then None
      else
        var rest := CodePoints(s[2..]);
        if rest.None? then None
        else Some([Paired(s[0], s[1])] + rest.value)
    else if IsLow(s[0]) then None
    else
      var rest := CodePoints(s[1..]);
      if rest.None? then None else Some([s[0] as Scalar] + rest.value)
  }

  lemma {:induction false} CodePointsUnits(s: seq<Unit>)
    ensures CodePoints(s).Some? ==> Units(CodePoints(s).value) == s
  {
    if s != [] && CodePoints(s).Some? {
      var cs := CodePoints(s).value;
      var n := if IsHigh(s[0]) then 2 else 1;
      CodePointsUnits(s[n..]);
      assert cs[1..] == CodePoints(s[n..]).value;
      assert UnitsOf(cs[0]) == s[..n];
      assert s == s[..n] + s[n..];
    }
  }

  /** Two units of one code point are a surrogate pair, and stand for it. */
  lemma PairOf(c: Scalar)
    requires c >= 0x1_0000
    ensures var u := UnitsOf(c); |u| == 2 && IsHigh(u[0]) && IsLow(u[1]) && Paired(u[0], u[1]) == c
  {
  }

  lemma {:induction false} UnitsCodePoints(cs: seq<Scalar>)
    ensures CodePoints(Units(cs)) == Some(cs)
  {
    if cs != [] {
      var c, s, n := cs[0], Units(cs), |UnitsOf(cs[0])|;
      UnitsCodePoints(cs[1..]);
      assert s[n..] == Units(cs[1..]) && s[..n] == UnitsOf(c);
      assert cs == [c] + cs[1..];
      if c >= 0x1_0000 {
        PairOf(c);
        assert s[0] == UnitsOf(c)[0] && s[1] == UnitsOf(c)[1];
        hide Paired;
      } else {
        assert s[0] == c;
      }
      hide UnitsOf;
    }
  }

  /** A string is well formed exactly when it is the UTF-16 of some code points. */
  lemma WellFormedExactly(s: seq<Unit>)
    ensures CodePoints(s).Some? <==> exists cs: seq<Scalar> :: Units(cs) == s
  {
    CodePointsUnits(s);
    if cs: seq<Scalar> :| Units(cs) == s {
      UnitsCodePoints(cs);
    }
  }
}
