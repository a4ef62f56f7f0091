/**
 Truncating a string mark: encode as UTF-8 (RFC 3629 section 3), cut the bytes, decode ignoring
 errors. A string is a sequence of code points; lone surrogates occur and cannot be encoded.
 */
module MarkText {
  import opened Common

  const MAX_STRING_BYTES: nat := 256

  type CodePoint = c: int | 0 <= c < 0x11_0000

  type Byte = b: int | 0 <= b < 0x100

  type Text = seq<CodePoint>

  predicate Surrogate(c: CodePoint) { 0xD800 <= c < 0xE000 }

  predicate Encodable(s: Text) { forall c | c in s :: !Surrogate(c) }

  function Tail(c: int): Byte { 0x80 + c % 0x40 }

  function EncodeOne(c: CodePoint): seq<Byte> {
    if c < 0x80 then [c]
    else if c < 0x800 then [0xC0 + c / 0x40, Tail(c)]
    else if c < 0x1_0000 then [0xE0 + c / 0x1000, Tail(c / 0x40), Tail(c)]
    else [0xF0 + c / 0x4_0000, Tail(c / 0x1000), Tail(c / 0x40), Tail(c)]
  }

  function Encode(s: Text): seq<Byte> {
    if s == [] then [] else EncodeOne(s[0]) + Encode(s[1..])
  }

  // ---------------------------------------------------------------------------------------------
  // Decoding arbitrary bytes
  // ---------------------------------------------------------------------------------------------

  /** How many continuation bytes a lead byte calls for; none is a lead byte below 0xC2 or above 0xF4. */
  function Need(lead: Byte): Option<nat> {
    if lead < 0x80 then Some(0)
    else if 0xC2 <= lead < 0xE0 then Some(1)
    else if 0xE0 <= lead < 0xF0 then Some(2)
    else if 0xF0 <= lead < 0xF5 then Some(3)
    else None
  }

  /** The first continuation byte is narrowed so that overlong forms, surrogates and overflow fail. */
  predicate Follows(lead: Byte, position: nat, b: Byte) {
    && 0x80 <= b < 0xC0
    && (position == 1 ==>
      && (lead == 0xE0 ==> b >= 0xA0) && (lead == 0xED ==> b < 0xA0)
      && (lead == 0xF0 ==> b >= 0x90) && (lead == 0xF4 ==> b < 0x90))
  }

  /** The bytes after the lead, up to `need`, that belong to its sequence. */
  function Valid(bs: seq<Byte>, position: nat, need: nat): (n: nat)
    requires bs != [] && position >= 1
    ensures n <= need && position + n <= Max(position, |bs|)
    decreases need
  {
    if need > 0 && position < |bs| && Follows(bs[0], position, bs[position])
    then 1 + Valid(bs, position + 1, need - 1) else 0
  }

  function Max(a: nat, b: nat): nat { if a < b then b else a }

  /** The code point of a complete sequence. */
  function Assemble(bs: seq<Byte>, need: nat): int
    requires need <= 3 && |bs| > need
  {
    match need
    case 0 => bs[0]
    case 1 => Less(bs[0], 0xC0) * 0x40 + Less(bs[1], 0x80)
    case 2 => Less(bs[0], 0xE0) * 0x1000 + Less(bs[1], 0x80) * 0x40 + Less(bs[2], 0x80)
    case 3 => Less(bs[0], 0xF0) * 0x4_0000 + Less(bs[1], 0x80) * 0x1000 + Less(bs[2], 0x80) * 0x40 + Less(bs[3], 0x80)
  }

  function Less(b: Byte, marker: int): int { (b as int) - marker }

  /** One decoding step: a code point, or an ill-formed subsequence to ignore. */
  datatype Step = Char(c: int, size: nat) | Skip(size: nat)

  function Next(bs: seq<Byte>): (step: Step)
    requires bs != []
    ensures 1 <= step.size <= |bs|
  {
    match Need(bs[0])
    case None => Skip(1)
    case Some(need) =>
      var n := Valid(bs, 1, need);
      if n == need then Char(Assemble(bs, need), need + 1) else Skip(n + 1)
  }

  /** Decoding with errors ignored. */
  function Decode(bs: seq<Byte>): seq<int> {
    if bs == [] then []
    else match Next(bs)
      case Char(c, size) => [c] + Decode(bs[size..])
      case Skip(size) => Decode(bs[size..])
  }

  // ---------------------------------------------------------------------------------------------
  // One code point
  // ---------------------------------------------------------------------------------------------

  lemma EncodedShape(c: CodePoint)
    requires !Surrogate(c)
    ensures var e := EncodeOne(c);
      && |e| >= 1 && Need(e[0]) == Some(|e| - 1)
      && forall i | 1 <= i < |e| :: Follows(e[0], i, e[i])
  {
  }

  /** The four lengths, with an example of each. */
  lemma EncodingLengths(c: CodePoint)
    ensures |EncodeOne(c)| == if c < 0x80 then 1 else if c < 0x800 then 2 else if c < 0x1_0000 then 3 else 4
    ensures EncodeOne(0x41) == [0x41] && EncodeOne(0xE9) == [0xC3, 0xA9]
    ensures EncodeOne(0x20AC) == [0xE2, 0x82, 0xAC] && EncodeOne(0x1_F600) == [0xF0, 0x9F, 0x98, 0x80]
  {
  }

  lemma EncodedValue(c: CodePoint)
    ensures |EncodeOne(c)| <= 4 && Assemble(EncodeOne(c), |EncodeOne(c)| - 1) == c
  {
    assert c == (c / 0x40) * 0x40 + c % 0x40;
    assert c / 0x40 == (c / 0x1000) * 0x40 + (c / 0x40) % 0x40;
    assert c / 0x1000 == (c / 0x4_0000) * 0x40 + (c / 0x1000) % 0x40;
  }

  lemma {:induction false} ValidAll(bs: seq<Byte>, position: nat, need: nat, have: nat)
    requires bs != [] && position >= 1 && have <= need && position + have <= |bs|
    requires forall i | position <= i < position + have :: Follows(bs[0], i, bs[i])
    requires have < need ==> position + have == |bs|
    ensures Valid(bs, position, need) == have
    decreases have
  {
    if have > 0 { ValidAll(bs, position + 1, need - 1, have - 1); }
  }

  /** A complete character is read off whole, whatever follows it. */
  lemma NextWhole(c: CodePoint, rest: seq<Byte>)
    requires !Surrogate(c)
    ensures Next(EncodeOne(c) + rest) == Char(c, |EncodeOne(c)|)
  {
    var e := EncodeOne(c);
    var bs := e + rest;
    EncodedShape(c);
    EncodedValue(c);
    forall i | 1 <= i < |e| ensures Follows(bs[0], i, bs[i]) { assert bs[i] == e[i]; }
    ValidAll(bs, 1, |e| - 1, |e| - 1);
    hide EncodeOne, Follows;
    assert Assemble(bs, |e| - 1) == Assemble(e, |e| - 1);
  }

  /** A cut character yields nothing and swallows nothing else. */
  lemma NextPartial(c: CodePoint, n: nat)
    requires !Surrogate(c) && 0 < n < |EncodeOne(c)|
    ensures Next(EncodeOne(c)[..n]) == Skip(n)
  {
    EncodedShape(c);
    hide EncodeOne, Follows;
    var e := EncodeOne(c);
    var bs := e[..n];
    forall i | 1 <= i < n ensures Follows(bs[0], i, bs[i]) { assert bs[i] == e[i]; }
    ValidAll(bs, 1, |e| - 1, n - 1);
  }

  lemma {:induction false} ValidFollows(bs: seq<Byte>, position: nat, need: nat)
    requires bs != [] && position >= 1
    ensures forall i | position <= i < position + Valid(bs, position, need) :: Follows(bs[0], i, bs[i])
    decreases need
  {
    if need > 0 && position < |bs| && Follows(bs[0], position, bs[position])
    { ValidFollows(bs, position + 1, need - 1); }
  }

  /** A complete, well-formed sequence. */
  predicate Sequence(q: seq<Byte>) {
    && 0 < |q| <= 4 && Need(q[0]) == Some(|q| - 1)
    && forall i | 1 <= i < |q| :: Follows(q[0], i, q[i])
  }

  lemma Digits(high: int, low: Byte)
    requires 0x80 <= low < 0xC0
    ensures (high * 0x40 + Less(low, 0x80)) / 0x40 == high && Tail(high * 0x40 + Less(low, 0x80)) == low
  {}

  lemma SequenceOfTwo(q: seq<Byte>)
    requires Sequence(q) && |q| <= 2
    ensures var c := Assemble(q, |q| - 1); 0 <= c < 0x800 && EncodeOne(c) == q
  {
    if |q| == 2 {
      assert Follows(q[0], 1, q[1]);
      Digits(Less(q[0], 0xC0), q[1]);
    }
  }

  lemma SequenceOfThree(q: seq<Byte>)
    requires Sequence(q) && |q| == 3
    ensures var c := Assemble(q, 2); 0x800 <= c < 0x1_0000 && !Surrogate(c) && EncodeOne(c) == q
  {
    assert Follows(q[0], 1, q[1]) && Follows(q[0], 2, q[2]);
    var high := Less(q[0], 0xE0) * 0x40 + Less(q[1], 0x80);
    Digits(Less(q[0], 0xE0), q[1]);
    Digits(high, q[2]);
    var c := Assemble(q, 2);
    assert c == high * 0x40 + Less(q[2], 0x80);
    assert 0x20 <= high < 0x400 && !(0x360 <= high < 0x380);
  }

  lemma SequenceOfFour(q: seq<Byte>)
    requires Sequence(q) && |q| == 4
    ensures var c := Assemble(q, 3); 0x1_0000 <= c < 0x11_0000 && EncodeOne(c) == q
  {
    assert Follows(q[0], 1, q[1]) && Follows(q[0], 2, q[2]) && Follows(q[0], 3, q[3]);
    var high := Less(q[0], 0xF0) * 0x40 + Less(q[1], 0x80);
    var middle := high * 0x40 + Less(q[2], 0x80);
    Digits(Less(q[0], 0xF0), q[1]);
    Digits(high, q[2]);
    Digits(middle, q[3]);
    var c := Assemble(q, 3);
    assert c == middle * 0x40 + Less(q[3], 0x80);
    assert 0x10 <= high < 0x110;
  }

  /** Whatever the bytes, a decoded character is encodable and its bytes are its encoding. */
  lemma NextIsCharacter(bs: seq<Byte>)
    requires bs != [] && Next(bs).Char?
    ensures 0 <= Next(bs).c < 0x11_0000 && !Surrogate(Next(bs).c) && EncodeOne(Next(bs).c) == bs[..Next(bs).size]
  {
    var need := Need(bs[0]).value;
    var q := bs[..need + 1];
    ValidFollows(bs, 1, need);
    assert Sequence(q);
    hide EncodeOne, Sequence;
    assert Assemble(bs, need) == Assemble(q, need);
    if need <= 1 { SequenceOfTwo(q); } else if need == 2 { SequenceOfThree(q); } else { SequenceOfFour(q); }
  }

  // ---------------------------------------------------------------------------------------------
  // Truncation
  // ---------------------------------------------------------------------------------------------

  /** The reference: take characters while their encoding still fits. */
  function LongestFitting(s: Text, limit: nat): Text {
    if s == [] || |EncodeOne(s[0])| > limit then []
    else [s[0]] + LongestFitting(s[1..], limit - |EncodeOne(s[0])|)
  }

  /** It is a prefix, it fits, and no longer prefix does. */
  lemma {:induction false} LongestFittingIsLongest(s: Text, limit: nat)
    ensures var t := LongestFitting(s, limit);
      && |t| <= |s| && t == s[..|t|] && |Encode(t)| <= limit
      && forall k | |t| < k <= |s| :: |Encode(s[..k])| > limit
  {
    if s != [] && |EncodeOne(s[0])| <= limit {
      var rest := s[1..];
      LongestFittingIsLongest(rest, limit - |EncodeOne(s[0])|);
      var t := LongestFitting(s, limit);
      assert t[1..] == LongestFitting(rest, limit - |EncodeOne(s[0])|);
      forall k | |t| < k <= |s| ensures |Encode(s[..k])| > limit {
        assert s[..k][0] == s[0] && s[..k][1..] == rest[..k - 1];
      }
    } else if s != [] {
      forall k | 0 < k <= |s| ensures |Encode(s[..k])| > limit {
        assert s[..k][0] == s[0];
      }
    }
  }

  /** Cutting the bytes and decoding with errors ignored drops just the partial last character. */
  lemma {:induction false} CutDecodes(s: Text, limit: nat)
    requires Encodable(s) && limit <= |Encode(s)|
    ensures Decode(Encode(s)[..limit]) == LongestFitting(s, limit)
  {
    if s != [] && limit > 0 {
      var e, rest := EncodeOne(s[0]), Encode(s[1..]);
      var bs := Encode(s)[..limit];
      assert s[0] in s;
      if |e| > limit {
        assert bs == e[..limit];
        NextPartial(s[0], limit);
        assert bs[limit..] == [];
      } else {
        assert bs == e + rest[..limit - |e|];
        NextWhole(s[0], rest[..limit - |e|]);
        assert bs[|e|..] == rest[..limit - |e|];
        CutDecodes(s[1..], limit - |e|);
      }
    }
  }

  /** Encoding and decoding an encodable string gives it back. */
  lemma RoundTrip(s: Text)
    requires Encodable(s)
    ensures Decode(Encode(s)) == s
  {
    CutDecodes(s, |Encode(s)|);
    assert Encode(s)[..|Encode(s)|] == Encode(s);
    FitsWhole(s, |Encode(s)|);
  }

  lemma {:induction false} FitsWhole(s: Text, limit: nat)
    requires |Encode(s)| <= limit
    ensures LongestFitting(s, limit) == s
  {
    if s != [] { FitsWhole(s[1..], limit - |EncodeOne(s[0])|); }
  }

  /** Encoding fails on a lone surrogate. */
  datatype Coerced = Value(text: seq<int>) | EncodeError

  /** The string branch of `mark`, for the shipped limit. */
  method CoerceString(value: Text) returns (r: Coerced)
    ensures r.EncodeError? <==> !Encodable(value)
    ensures r.Value? ==> r.text == LongestFitting(value, 256)
  {
    if !Encodable(value) { return EncodeError; }
    var encoded := Encode(value);
    if |encoded| > MAX_STRING_BYTES {
      CutDecodes(value, MAX_STRING_BYTES);
      return Value(Decode(encoded[..MAX_STRING_BYTES]));
    }
    FitsWhole(value, MAX_STRING_BYTES);
    return Value(value);
  }

  /** A string that fits is kept; one that does not loses at most three bytes more than it must. */
  lemma {:induction false} TruncationIsTight(s: Text, limit: nat)
    ensures LongestFitting(s, limit) == s <==> |Encode(s)| <= limit
    ensures |Encode(s)| > limit ==> |Encode(LongestFitting(s, limit))| + 4 > limit
  {
    if s != [] {
      EncodedValue(s[0]);
      if |EncodeOne(s[0])| <= limit {
        var t := LongestFitting(s, limit);
        TruncationIsTight(s[1..], limit - |EncodeOne(s[0])|);
        assert t[1..] == LongestFitting(s[1..], limit - |EncodeOne(s[0])|);
        assert t == s ==> t[1..] == s[1..];
      }
    }
  }
}
