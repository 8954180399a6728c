/** Percent-escaping and the flat query string (sections 2.1 and 3.4 of RFC 3986). Text is held as UTF-8 bytes. */
module QueryEscape {
  import opened Common

  const AMPERSAND: Byte := 38
  const EQUALS: Byte := 61
  const PERCENT: Byte := 37

  /** A user-perceived character: one or more UTF-8 bytes that Foundation never splits. */
  type Character = c: Bytes | |c| > 0 witness [0]

  function Utf8(text: seq<Character>): Bytes {
    if text == [] then [] else text[0] + Utf8(text[1..])
  }

  /** `urlQueryAllowed` without the delimiters: letters, digits and `- . _ ~ / ?`. */
  predicate Allowed(b: Byte) {
    || 48 <= b <= 57 || 65 <= b <= 90 || 97 <= b <= 122
    || b in {45, 46, 95, 126, 47, 63}
  }

  function HexDigit(n: int): Byte
    requires 0 <= n < 16
  {
    if n < 10 then 48 + n else 55 + n
  }

  function EncodeByte(b: Byte): Bytes {
    if Allowed(b) then [b] else [PERCENT, HexDigit(b / 16), HexDigit(b % 16)]
  }

  function PercentEncode(s: Bytes): Bytes {
    if s == [] then [] else EncodeByte(s[0]) + PercentEncode(s[1..])
  }

  // ---------------------------------------------------------------------------------------------
  // The reader: section 2.1 of RFC 3986, upper and lower case digits
  // ---------------------------------------------------------------------------------------------

  function HexValue(b: Byte): (r: Option<int>)
    ensures r.Some? ==> 0 <= r.value < 16
  {
    if 48 <= b <= 57 then Some(b - 48)
    else if 65 <= b <= 70 then Some(b - 55)
    else if 97 <= b <= 102 then Some(b - 87)
    else None
  }

  function PercentDecode(s: Bytes): Option<Bytes> {
    if s == [] then Some([])
    else if s[0] != PERCENT then
      match PercentDecode(s[1..])
      case Some(rest) => Some([s[0]] + rest)
      case None => None
    else if |s| < 3 then None
    else
      match (HexValue(s[1]), HexValue(s[2]), PercentDecode(s[3..]))
      case (Some(hi), Some(lo), Some(rest)) => Some([16 * hi + lo] + rest)
      case _ => None
  }

  lemma HexDigits(b: Byte)
    ensures HexValue(HexDigit(b / 16)) == Some(b / 16) && HexValue(HexDigit(b % 16)) == Some(b % 16)
    ensures b == 16 * (b / 16) + b % 16
  {
  }

  lemma DecodeEscape(s: Bytes)
    requires |s| >= 3 && s[0] == PERCENT
    ensures PercentDecode(s)
         == match (HexValue(s[1]), HexValue(s[2]), PercentDecode(s[3..]))
            case (Some(hi), Some(lo), Some(rest)) => Some([16 * hi + lo] + rest)
            case _ => None
  {
    hide HexValue;
  }

  lemma EscapeDecodes(hi: Byte, lo: Byte, rest: Bytes)
    requires HexValue(hi).Some? && HexValue(lo).Some?
    ensures PercentDecode([PERCENT, hi, lo] + rest)
         == if PercentDecode(rest).Some?
            then Some([16 * HexValue(hi).value + HexValue(lo).value] + PercentDecode(rest).value) else None
  {
    var s := [PERCENT, hi, lo] + rest;
    assert s[0] == PERCENT && s[1] == hi && s[2] == lo && s[3..] == rest;
    DecodeEscape(s);
    hide HexValue, PercentDecode;
  }

  lemma PlainDecodes(b: Byte, rest: Bytes)
    requires b != PERCENT
    ensures PercentDecode([b] + rest)
         == if PercentDecode(rest).Some? then Some([b] + PercentDecode(rest).value) else None
  {
    assert ([b] + rest)[1..] == rest;
  }

  lemma EncodeByteDecodes(b: Byte, rest: Bytes)
    ensures PercentDecode(EncodeByte(b) + rest)
         == if PercentDecode(rest).Some? then Some([b] + PercentDecode(rest).value) else None
  {
    hide PercentDecode, HexValue, HexDigit;
    if Allowed(b) {
      PlainDecodes(b, rest);
    } else {
      HexDigits(b);
      EscapeDecodes(HexDigit(b / 16), HexDigit(b % 16), rest);
    }
  }

  /** Decoding undoes escaping, on every byte string. */
  lemma {:induction false} PercentRoundTrip(s: Bytes)
    ensures PercentDecode(PercentEncode(s)) == Some(s)
  {
    if s != [] {
      PercentRoundTrip(s[1..]);
      EncodeByteDecodes(s[0], PercentEncode(s[1..]));
      assert s == [s[0]] + s[1..];
    }
  }

  /** An escaped text consists of letters, digits, `- . _ ~ / ?` and `%`: no delimiter of RFC 3986 (`: # [ ] @` and
      `! $ & ' ( ) * + , ; =`) is left, no space, no control, and nothing beyond ASCII. */
  lemma {:induction false} EscapedIsSafe(s: Bytes, c: Byte)
    requires c in PercentEncode(s)
    ensures 48 <= c <= 57 || 65 <= c <= 90 || 97 <= c <= 122 || c in {45, 46, 95, 126, 47, 63, 37}
    ensures c !in {58, 35, 91, 93, 64} && c !in {33, 36, 38, 39, 40, 41, 42, 43, 44, 59, 61}
    ensures 32 < c < 127
  {
    if c !in EncodeByte(s[0]) {
      EscapedIsSafe(s[1..], c);
    }
  }

  /** A letter, a digit or one of `- . _ ~ / ?` is printed as itself, and no other byte is: that is printed as `%` and
      its two hexadecimal digits, in upper case. */
  lemma PrintedByte(b: Byte)
    ensures PercentEncode([b]) == [b]
       <==> 48 <= b <= 57 || 65 <= b <= 90 || 97 <= b <= 122 || b in {45, 46, 95, 126, 47, 63}
    ensures var digits := [48, 49, 50, 51, 52, 53, 54, 55, 56, 57, 65, 66, 67, 68, 69, 70];
            PercentEncode([b]) == [b] || PercentEncode([b]) == [37, digits[b / 16], digits[b % 16]]
  {
    assert [b][1..] == [] && PercentEncode([b]) == EncodeByte(b);
  }

  lemma {:induction false} EncodeDistributes(a: Bytes, b: Bytes)
    ensures PercentEncode(a + b) == PercentEncode(a) + PercentEncode(b)
  {
    if a == [] {
      assert a + b == b;
    } else {
      EncodeDistributes(a[1..], b);
      assert (a + b)[1..] == a[1..] + b;
      Assoc(EncodeByte(a[0]), PercentEncode(a[1..]), PercentEncode(b));
    }
  }

  lemma {:induction false} Utf8Distributes(a: seq<Character>, b: seq<Character>)
    ensures Utf8(a + b) == Utf8(a) + Utf8(b)
  {
    hide *;
    Utf8Step(a);
    if a == [] {
      assert a + b == b && Utf8(a) + Utf8(b) == Utf8(b);
    } else {
      Utf8Distributes(a[1..], b);
      assert (a + b)[1..] == a[1..] + b && (a + b)[0] == a[0];
      Utf8Step(a + b);
      Assoc(a[0], Utf8(a[1..]), Utf8(b));
    }
  }

  lemma Utf8Step(text: seq<Character>)
    ensures text == [] ==> Utf8(text) == []
    ensures text != [] ==> Utf8(text) == text[0] + Utf8(text[1..])
  {
  }

  // ---------------------------------------------------------------------------------------------
  // The flat query string
  // ---------------------------------------------------------------------------------------------

  type Pair = (Bytes, Bytes)

  function EscapePairs(raw: seq<Pair>): (r: seq<Pair>)
    ensures |r| == |raw|
  {
    if raw == [] then []
    else [(PercentEncode(raw[0].0), PercentEncode(raw[0].1))] + EscapePairs(raw[1..])
  }

  /** `key=value` pieces joined with `&`. */
  function Join(pairs: seq<Pair>): Bytes {
    if pairs == [] then []
    else
      var piece := pairs[0].0 + [EQUALS] + pairs[0].1;
      if |pairs| == 1 then piece else piece + [AMPERSAND] + Join(pairs[1..])
  }

  /** One pair is printed as `key=value`; the strings of two lists are joined by `&`. */
  lemma {:induction false} JoinConcat(a: seq<Pair>, b: seq<Pair>)
    ensures |a| == 1 ==> Join(a) == a[0].0 + [61] + a[0].1
    ensures a != [] && b != [] ==> Join(a + b) == Join(a) + [38] + Join(b)
  {
    if |a| > 1 && b != [] {
      JoinConcat(a[1..], b);
      assert (a + b)[1..] == a[1..] + b;
    } else if |a| == 1 && b != [] {
      assert (a + b)[1..] == b;
    }
  }

  function ParsePair(piece: Bytes): Option<Pair> {
    match Find(piece, [EQUALS])
    case None => None
    case Some(i) =>
      match (PercentDecode(piece[..i]), PercentDecode(piece[i + 1..]))
      case (Some(k), Some(v)) => Some((k, v))
      case _ => None
  }

  /** Splits on `&`, then each piece on its first `=`, then decodes both sides. */
  function ParseQuery(s: Bytes): Option<seq<Pair>>
    decreases |s|
  {
    match Find(s, [AMPERSAND])
    case None =>
      (match ParsePair(s) case Some(p) => Some([p]) case None => None)
    case Some(i) =>
      match (ParsePair(s[..i]), ParseQuery(s[i + 1..]))
      case (Some(p), Some(rest)) => Some([p] + rest)
      case _ => None
  }

  lemma EscapedLacks(s: Bytes, c: Byte)
    requires c in {AMPERSAND, EQUALS}
    ensures Find(PercentEncode(s), [c]).None?
  {
    NotFoundIffAbsent(PercentEncode(s), c);
    if c in PercentEncode(s) { EscapedIsSafe(s, c); }
  }

  lemma EscapedPieceParses(p: Pair)
    ensures var piece := PercentEncode(p.0) + [EQUALS] + PercentEncode(p.1);
            ParsePair(piece) == Some(p) && Find(piece, [AMPERSAND]).None?
  {
    var k, v := PercentEncode(p.0), PercentEncode(p.1);
    var piece := k + [EQUALS] + v;
    EscapedLacks(p.0, EQUALS);
    FindFirstDelimiter(k, [EQUALS], v);
    assert piece[..|k|] == k && piece[|k| + 1..] == v;
    PercentRoundTrip(p.0);
    PercentRoundTrip(p.1);
    EscapedLacks(p.0, AMPERSAND);
    EscapedLacks(p.1, AMPERSAND);
    NotFoundIffAbsent(k, AMPERSAND);
    NotFoundIffAbsent(v, AMPERSAND);
    NotFoundIffAbsent(piece, AMPERSAND);
  }

  lemma ParseQueryStep(piece: Bytes, tail: Bytes)
    requires Find(piece, [AMPERSAND]).None? && ParsePair(piece).Some? && ParseQuery(tail).Some?
    ensures ParseQuery(piece + [AMPERSAND] + tail) == Some([ParsePair(piece).value] + ParseQuery(tail).value)
  {
    var s := piece + [AMPERSAND] + tail;
    FindFirstDelimiter(piece, [AMPERSAND], tail);
    assert s[..|piece|] == piece && s[|piece| + 1..] == tail;
  }

  /** The query string gives back the unescaped components exactly when there is at least one. */
  lemma {:induction false} QueryRoundTrip(raw: seq<Pair>)
    ensures ParseQuery(Join(EscapePairs(raw))) == Some(raw) <==> raw != []
  {
    if raw == [] {
      assert Join(EscapePairs(raw)) == [];
    } else {
      EscapedPieceParses(raw[0]);
      var piece := PercentEncode(raw[0].0) + [EQUALS] + PercentEncode(raw[0].1);
      var rest := raw[1..];
      assert raw == [raw[0]] + rest;
      assert EscapePairs(raw)[1..] == EscapePairs(rest);
      if rest == [] {
        assert Join(EscapePairs(raw)) == piece && raw == [raw[0]];
      } else {
        QueryRoundTrip(rest);
        ParseQueryStep(piece, Join(EscapePairs(rest)));
      }
    }
  }
}
