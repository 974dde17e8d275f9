/**
 * Text of a conversation event: refused when it is not well formed, cut to a byte limit at the
 * end of a code point otherwise.
 */
module HookText {
  import opened ByteStrings
  import opened Incremental
  import opened Options
  import opened Utf8

  const BOM: Scalar := 0xFEFF

  /** `new TextDecoder('utf-8', { fatal: true }).decode`: strict, and a leading byte order mark is dropped. */
  function DecodeText(b: Bytes): Option<seq<Scalar>> {
    var cs := Decode(b);
    if cs.None? then None
    else if cs.value != [] && cs.value[0] == BOM then Some(cs.value[1..])
    else cs
  }

  method HasUnpairedSurrogate(s: seq<Unit>) returns (unpaired: bool)
    ensures unpaired <==> !exists cs: seq<Scalar> :: Units(cs) == s
  {
    WellFormedExactly(s);
    var i := 0;
    while i < |s|
      invariant i <= |s|
      invariant CodePoints(s[i..]).Some? <==> CodePoints(s).Some?
    {
      if IsHigh(s[i]) {
        if i + 1 >= |s| || !IsLow(s[i + 1]) {
          return true;
        }
        assert s[i..][2..] == s[i + 2..];
        i := i + 1;
      } else if IsLow(s[i]) {
        return true;
      } else {
        assert s[i..][1..] == s[i + 1..];
      }
      i := i + 1;
    }
    return false;
  }

  datatype Bounded = Bounded(text: seq<Scalar>, truncated: bool)

  /** The longest prefix of whole code points that fits. */
  ghost predicate LongestPrefix(text: seq<Scalar>, cs: seq<Scalar>, maxBytes: nat) {
    text <= cs && |Encode(text)| <= maxBytes
    && forall longer :: text < longer <= cs ==> |Encode(longer)| > maxBytes
  }

  /** A text that begins with a byte order mark and is cut behind it. */
  predicate LosesMark(cs: seq<Scalar>, maxBytes: nat) {
    |Encode(cs)| > maxBytes >= 3 && cs[0] == BOM
  }

  /** What a text too long is cut to: its longest prefix that fits, without a byte order mark. */
  ghost predicate Cut(text: seq<Scalar>, cs: seq<Scalar>, maxBytes: nat) {
    if LosesMark(cs, maxBytes) then LongestPrefix([BOM] + text, cs, maxBytes) else LongestPrefix(text, cs, maxBytes)
  }

  /** Decodes ever fewer bytes until they end with a whole code point. */
  method CutText(bytes: Bytes, maxBytes: nat, ghost cs: seq<Scalar>) returns (text: seq<Scalar>)
    requires bytes == Encode(cs) && maxBytes < |bytes|
    ensures Cut(text, cs, maxBytes)
  {
    hide LongestPrefix;
    ghost var k := CutAt(cs, maxBytes);
    PrefixIsLongest(cs, maxBytes, k);
    FirstFits(cs, maxBytes, k);
    var end := maxBytes;
    while end > 0
      invariant |Encode(cs[..k])| <= end <= maxBytes
    {
      var decoded := DecodeText(bytes[..end]);
      CutReads(cs, maxBytes, k, end);
      if decoded.Some? {
        return decoded.value;
      }
      end := end - 1;
    }
    EncodeLength(cs[..k]);
    return [];
  }

  /** The first `end` bytes can be read only if they end with the last code point that fits. */
  lemma CutReads(cs: seq<Scalar>, maxBytes: nat, k: nat, end: nat)
    requires k < |cs| && |Encode(cs[..k])| <= end <= maxBytes < |Encode(cs[..k + 1])| <= |Encode(cs)|
    ensures DecodeText(Encode(cs)[..end]) ==
      if end > |Encode(cs[..k])| then None
      else if k > 0 && cs[0] == BOM then Some(cs[1..k])
      else Some(cs[..k])
  {
    var j := CutDecodes(cs, end);
    if j < k {
      EncodePrefix(cs, j + 1, k);
    } else if k < j {
      EncodePrefix(cs, k + 1, j);
    }
    assert cs[..k] != [] ==> cs[..k][0] == cs[0] && cs[..k][1..] == cs[1..k];
  }

  lemma PrefixIsLongest(cs: seq<Scalar>, maxBytes: nat, k: nat)
    requires k < |cs| && |Encode(cs[..k])| <= maxBytes < |Encode(cs[..k + 1])|
    ensures LongestPrefix(cs[..k], cs, maxBytes) && |Encode(cs[..k + 1])| <= |Encode(cs)|
    ensures k > 0 && cs[0] == BOM ==> [BOM] + cs[1..k] == cs[..k]
  {
    forall longer | cs[..k] < longer <= cs
      ensures |Encode(longer)| > maxBytes
    {
      assert longer == cs[..|longer|];
      EncodePrefix(cs, k + 1, |longer|);
    }
    EncodePrefix(cs, k + 1, |cs|);
    assert cs[..|cs|] == cs;
  }

  /** The mark takes three bytes, so it fits if and only if some code point does. */
  lemma FirstFits(cs: seq<Scalar>, maxBytes: nat, k: nat)
    requires k < |cs| && |Encode(cs[..k])| <= maxBytes < |Encode(cs[..k + 1])|
    ensures cs[0] == BOM ==> (k > 0 <==> maxBytes >= 3)
  {
    assert cs[..1][1..] == [] && cs[..1][0] == cs[0];
    assert Encode(cs[..1]) == EncodeScalar(cs[0]) + Encode([]);
    if k > 0 {
      EncodePrefix(cs, 1, k);
    }
  }

  method BoundedText(value: seq<Unit>, maxBytes: nat) returns (r: Option<Bounded>)
    ensures r.None? <==> 0 in value || CodePoints(value).None?
    ensures r.Some? ==>
      var cs := CodePoints(value).value;
      if |Encode(cs)| <= maxBytes then r.value == Bounded(cs, false)
      else r.value.truncated && Cut(r.value.text, cs, maxBytes)
  {
    if 0 in value {
      return None;
    }
    var unpaired := HasUnpairedSurrogate(value);
    WellFormedExactly(value);
    if unpaired {
      return None;
    }
    var cs := CodePoints(value).value;
    var bytes := Encode(cs);
    if |bytes| <= maxBytes {
      return Some(Bounded(cs, false));
    }
    var text := CutText(bytes, maxBytes, cs);
    return Some(Bounded(text, true));
  }

  /** The cut is the longest prefix of whole code points that fits exactly when no byte order mark is lost. */
  lemma LongestPrefixExactly(cs: seq<Scalar>, maxBytes: nat, text: seq<Scalar>)
    requires |Encode(cs)| > maxBytes && Cut(text, cs, maxBytes)
    ensures LongestPrefix(text, cs, maxBytes) <==> !LosesMark(cs, maxBytes)
  {
    assert text <= cs && [BOM] + text <= cs ==> text < [BOM] + text;
  }

  lemma LongestPrefixUnique(cs: seq<Scalar>, maxBytes: nat, a: seq<Scalar>, b: seq<Scalar>)
    requires LongestPrefix(a, cs, maxBytes) && LongestPrefix(b, cs, maxBytes)
    ensures a == b
  {
    assert |a| < |b| ==> a < b;
    assert |b| < |a| ==> b < a;
  }

  /** There is one such cut, so the result is determined by the text and the limit. */
  lemma CutUnique(cs: seq<Scalar>, maxBytes: nat, a: seq<Scalar>, b: seq<Scalar>)
    requires Cut(a, cs, maxBytes) && Cut(b, cs, maxBytes)
    ensures a == b
  {
    hide LongestPrefix;
    if LosesMark(cs, maxBytes) {
      LongestPrefixUnique(cs, maxBytes, [BOM] + a, [BOM] + b);
      assert a == ([BOM] + a)[1..] && b == ([BOM] + b)[1..];
    } else {
      LongestPrefixUnique(cs, maxBytes, a, b);
    }
  }

  /** A mark and a letter, cut to the three bytes of the mark, leave nothing. */
  lemma MarkIsLost()
    ensures LosesMark([BOM, 65], 3) && Cut([], [BOM, 65], 3) && !LongestPrefix([], [BOM, 65], 3)
  {
    var cs: seq<Scalar> := [BOM, 65];
    assert cs[1..] == [65] && cs[1..][1..] == [] && cs[..2] == cs && cs[..1] == [BOM] && [BOM][1..] == [];
    assert Encode([65]) == EncodeScalar(65) + Encode([]);
    assert Encode([BOM]) == EncodeScalar(BOM) + Encode([]);
    assert |Encode(cs)| == |EncodeScalar(BOM)| + |Encode([65])| == 4;
    PrefixIsLongest(cs, 3, 1);
    assert [BOM] + [] == [BOM];
    LongestPrefixExactly(cs, 3, []);
  }
}
