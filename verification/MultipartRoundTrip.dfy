/** The reader recovers exactly what the encoder printed, and exactly when. */
module MultipartRoundTrip {
  import opened Common
  import opened MultipartSpec

  function AsEntity(p: Part): Entity {
    Entity(p.headers, Some(p.body))
  }

  function AsEntities(parts: seq<Part>): seq<Entity> {
    if parts == [] then [] else [AsEntity(parts[0])] + AsEntities(parts[1..])
  }

  predicate HeaderClean(h: Header) {
    && 58 !in h.key
    && Find(h.key, CRLF).None?
    && Find(h.value, CRLF).None?
  }

  predicate HeadersClean(headers: seq<Header>) {
    forall h :: h in headers ==> HeaderClean(h)
  }

  /** What a part must satisfy to survive the round trip: it is checkable before it is appended. */
  predicate Recoverable(boundary: Bytes, p: Part) {
    && HeadersClean(p.headers)
    && Find(CRLF + Content(p), Delimiter(boundary)).None?
  }

  lemma HeaderLinesSnoc(hs: seq<Header>)
    requires hs != []
    ensures HeaderLines(hs) == HeaderLines(hs[..|hs| - 1]) + HeaderLine(hs[|hs| - 1])
  {
  }

  lemma {:induction false} HeaderLinesCons(h: Header, rest: seq<Header>)
    ensures HeaderLines([h] + rest) == HeaderLine(h) + HeaderLines(rest)
  {
    var hs := [h] + rest;
    HeaderLinesSnoc(hs);
    assert HeaderLines([]) == [];
    hide *;
    if rest == [] {
      assert hs[..0] == [] && hs[0] == h;
    } else {
      var init, last := rest[..|rest| - 1], rest[|rest| - 1];
      assert hs[..|hs| - 1] == [h] + init && hs[|hs| - 1] == last;
      HeaderLinesCons(h, init);
      HeaderLinesSnoc(rest);
      Assoc(HeaderLine(h), HeaderLines(init), HeaderLine(last));
    }
  }

  lemma HeaderLineHasNoBreak(h: Header)
    requires HeaderClean(h)
    ensures Find(h.key + [58, 32] + h.value, CRLF).None?
  {
    var line := h.key + [58, 32] + h.value;
    var v := h.value;
    forall j ensures !OccursAt(line, CRLF, j) {
      if 0 <= j <= |line| - 2 {
        var v0 := j - |h.key| - 2;
        assert !OccursAt(h.key, CRLF, j) && !OccursAt(v, CRLF, v0);
        if j + 2 <= |h.key| {
          assert line[j..j + 2] == h.key[j..j + 2];
        } else if 0 <= v0 {
          SliceOfSuffix(h.key + [58, 32], v, j, j + 2);
        } else {
          assert line[j..j + 2][0] == line[j] && line[j..j + 2][1] == line[j + 1];
        }
      }
    }
  }

  lemma HeaderLineParses(h: Header)
    requires 58 !in h.key
    ensures ParseHeader(h.key + [58, 32] + h.value) == Some(h)
  {
    var v := h.value;
    var line := h.key + [58, 32] + v;
    NotFoundIffAbsent(h.key, 58);
    FindFirstDelimiter(h.key, [58], [32] + v);
    assert line == h.key + [58] + ([32] + v);
    assert line[..|h.key|] == h.key && line[|h.key| + 2..] == v;
  }

  /** A header line before the first CRLF is printed back by its header, which is clean. */
  lemma HeaderLineSound(x: Bytes, j: nat)
    requires Find(x, CRLF) == Some(j) && ParseHeader(x[..j]).Some?
    ensures var h := ParseHeader(x[..j]).value;
            HeaderClean(h) && h.key + [58, 32] + h.value == x[..j]
  {
    var line := x[..j];
    var h := ParseHeader(line).value;
    var k := Find(line, [58]).value;
    assert line[k..k + 1][0] == 58;
    assert line == line[..k] + [58, 32] + line[k + 2..];
    assert h.key == x[0..k] && h.value == x[k + 2..j] && h.key == line[0..k];
    NotFoundInSlice(x, CRLF, 0, k);
    NotFoundInSlice(x, CRLF, k + 2, j);
    NotFoundInSlice(line, [58], 0, k);
    NotFoundIffAbsent(h.key, 58);
  }

  /** What the reader accepts is exactly what its result prints, and its headers are clean. */
  lemma {:induction false} ParseEntitySound(x: Bytes)
    requires ParseEntity(x).Some?
    ensures var e := ParseEntity(x).value;
            && HeadersClean(e.headers)
            && (e.body.Some? ==> Content(Part(e.headers, e.body.value)) == x)
    decreases |x|
  {
    if x == [] {
    } else if CRLF <= x {
      assert HeaderLines([]) + CRLF == CRLF;
      assert x == CRLF + x[2..];
    } else {
      var j := Find(x, CRLF).value;
      var h, e := ParseHeader(x[..j]).value, ParseEntity(x[j + 2..]).value;
      ParseEntitySound(x[j + 2..]);
      HeaderLineSound(x, j);
      HeaderLinesCons(h, e.headers);
      SplitAt(x, CRLF, j);
      if e.body.Some? {
        ConsContent(h, Part(e.headers, e.body.value));
      }
    }
  }

  lemma ConsContent(h: Header, p: Part)
    ensures Content(Part([h] + p.headers, p.body)) == (h.key + [58, 32] + h.value) + CRLF + Content(p)
  {
    HeaderLinesCons(h, p.headers);
    Assoc(HeaderLine(h), HeaderLines(p.headers), CRLF);
    Assoc(HeaderLine(h), HeaderBlock(p.headers), p.body);
  }

  lemma SplitAt(x: Bytes, d: Bytes, j: nat)
    requires OccursAt(x, d, j)
    ensures x == x[..j] + d + x[j + |d|..]
  {
  }

  lemma {:induction false} ParseEntityComplete(p: Part)
    requires HeadersClean(p.headers)
    ensures ParseEntity(Content(p)) == Some(AsEntity(p))
    decreases |p.headers|
  {
    if p.headers == [] {
      assert Content(p) == CRLF + p.body;
      ParseBody(p.body);
    } else {
      var h, rest := p.headers[0], Part(p.headers[1..], p.body);
      assert HeaderClean(h) && 58 !in h.key;
      assert p.headers == [h] + rest.headers;
      hide Content, HeaderClean, ParseEntity, ParseHeader;
      ConsContent(h, rest);
      HeaderLineHasNoBreak(h);
      HeaderLineParses(h);
      ParseEntityLine(h, h.key + [58, 32] + h.value, Content(rest));
      ParseEntityComplete(rest);
    }
  }

  lemma ParseBody(body: Bytes)
    ensures ParseEntity(CRLF + body) == Some(Entity([], Some(body)))
  {
  }

  /** The reader takes off one header line. */
  lemma ParseEntityLine(h: Header, line: Bytes, rest: Bytes)
    requires Find(line, CRLF).None? && ParseHeader(line) == Some(h)
    ensures ParseEntity(line + CRLF + rest)
         == match ParseEntity(rest)
            case Some(e) => Some(Entity([h] + e.headers, e.body))
            case None => None
  {
    var x := line + CRLF + rest;
    FindFirstDelimiter(line, CRLF, rest);
    assert x[..|line|] == line && x[|line| + 2..] == rest;
    assert Find(x, CRLF) == Some(|line|);
    assert CRLF <= x ==> OccursAt(x, CRLF, 0);
    hide ParseHeader, Find;
  }

  /** A header block and body are read back exactly when every header is clean. */
  lemma ContentRoundTrip(p: Part)
    ensures ParseEntity(Content(p)) == Some(AsEntity(p)) <==> HeadersClean(p.headers)
  {
    if HeadersClean(p.headers) {
      ParseEntityComplete(p);
    } else if ParseEntity(Content(p)).Some? {
      ParseEntitySound(Content(p));
    }
  }

  // ---------------------------------------------------------------------------------------------
  // The framing
  // ---------------------------------------------------------------------------------------------

  /** What the encoder prints after the first boundary text: each content, each next delimiter, the close. */
  function Tail(boundary: Bytes, parts: seq<Part>): Bytes {
    if parts == [] then DASHES + CRLF
    else CRLF + Content(parts[0]) + Delimiter(boundary) + Tail(boundary, parts[1..])
  }

  /** The first boundary, behind the CRLF that the reader puts in front, is like the others. */
  lemma InitialShape(boundary: Bytes, p: Part, final: bool)
    ensures CRLF + EncodePart(boundary, p, true, final) == EncodePart(boundary, p, false, final)
  {
    var h, close := HeaderBlock(p.headers), if final then BoundaryData(Final, boundary) else [];
    var open := BoundaryData(Initial, boundary);
    assert CRLF + open == BoundaryData(Encapsulated, boundary);
    Assoc(CRLF, open, h);
    Assoc(CRLF, open + h, p.body);
    Assoc(CRLF, open + h + p.body, close);
  }

  /** One printed part, followed by the next delimiter or by the close, in the shape the reader sees. */
  lemma PartShape(boundary: Bytes, p: Part, final: bool, after: Bytes)
    requires final ==> after == DASHES + CRLF
    ensures EncodePart(boundary, p, false, final) + (if final then [] else Delimiter(boundary) + after)
         == Delimiter(boundary) + (CRLF + Content(p) + Delimiter(boundary) + after)
  {
    var d, c, h := Delimiter(boundary), Content(p), HeaderBlock(p.headers);
    assert BoundaryData(Encapsulated, boundary) == d + CRLF;
    Assoc(d + CRLF, h, p.body);
    Assoc(d, CRLF, c);
    var close := if final then BoundaryData(Final, boundary) else [];
    assert final ==> close == d + after;
    Assoc(d, CRLF + c, d + after);
    Assoc(CRLF + c, d, after);
  }

  lemma {:induction false} EncodeIsTail(boundary: Bytes, parts: seq<Part>, n: nat)
    requires 0 < n <= |parts|
    ensures Encode(boundary, parts)
         == EncodeFirst(boundary, parts, n)
            + if n == |parts| then [] else Delimiter(boundary) + Tail(boundary, parts[n..])
    decreases |parts| - n
  {
    if n < |parts| {
      EncodeIsTail(boundary, parts, n + 1);
      assert parts[n..][0] == parts[n] && parts[n..][1..] == parts[n + 1..];
      var last := n + 1 == |parts|;
      var after := Tail(boundary, parts[n + 1..]);
      PartShape(boundary, parts[n], last, after);
      Assoc(EncodeFirst(boundary, parts, n), EncodePart(boundary, parts[n], false, last),
            if last then [] else Delimiter(boundary) + after);
    }
  }

  lemma FramingShape(boundary: Bytes, parts: seq<Part>)
    requires parts != []
    ensures CRLF + Encode(boundary, parts) == Delimiter(boundary) + Tail(boundary, parts)
  {
    EncodeIsTail(boundary, parts, 1);
    var p, last := parts[0], |parts| == 1;
    var e := EncodePart(boundary, p, true, last);
    assert EncodeFirst(boundary, parts, 1) == e by {
      assert EncodeFirst(boundary, parts, 0) == [];
    }
    var after := Tail(boundary, parts[1..]);
    InitialShape(boundary, p, last);
    PartShape(boundary, p, last, after);
    Assoc(CRLF, e, if last then [] else Delimiter(boundary) + after);
  }

  /** A part byte by byte: `key: value` lines, a blank line, the body. */
  function Shown(headers: seq<Header>, body: Bytes): Bytes {
    if headers == [] then [13, 10] + body
    else headers[0].key + [58, 32] + headers[0].value + [13, 10] + Shown(headers[1..], body)
  }

  /** The parts byte by byte: `--` and the boundary on a line of its own between them, and with `--` behind the last. */
  function ShownParts(boundary: Bytes, parts: seq<Part>): Bytes
    requires parts != []
  {
    Shown(parts[0].headers, parts[0].body)
    + if |parts| == 1 then [13, 10, 45, 45] + boundary + [45, 45, 13, 10]
      else [13, 10, 45, 45] + boundary + [13, 10] + ShownParts(boundary, parts[1..])
  }

  lemma {:induction false} ContentShown(headers: seq<Header>, body: Bytes)
    ensures Content(Part(headers, body)) == Shown(headers, body)
  {
    if headers == [] {
      assert HeaderBlock(headers) == [13, 10];
    } else {
      ContentShown(headers[1..], body);
      ConsContent(headers[0], Part(headers[1..], body));
      assert [headers[0]] + headers[1..] == headers;
    }
  }

  lemma DelimiterShown(boundary: Bytes, after: Bytes)
    ensures Delimiter(boundary) + (DASHES + CRLF) == [13, 10, 45, 45] + boundary + [45, 45, 13, 10]
    ensures Delimiter(boundary) + ([13, 10] + after) == [13, 10, 45, 45] + boundary + [13, 10] + after
  {
    assert Delimiter(boundary) == [13, 10, 45, 45] + boundary;
    Assoc([13, 10, 45, 45] + boundary, [13, 10], after);
  }

  lemma {:induction false} TailShown(boundary: Bytes, parts: seq<Part>)
    requires parts != []
    ensures Tail(boundary, parts) == [13, 10] + ShownParts(boundary, parts)
  {
    var rest := parts[1..];
    var content, tail := Shown(parts[0].headers, parts[0].body), Tail(boundary, rest);
    ContentShown(parts[0].headers, parts[0].body);
    if rest == [] {
      DelimiterShown(boundary, []);
    } else {
      TailShown(boundary, rest);
      DelimiterShown(boundary, ShownParts(boundary, rest));
    }
    Assoc(CRLF, content, Delimiter(boundary));
    Assoc(CRLF, content + Delimiter(boundary), tail);
    Assoc(content, Delimiter(boundary), tail);
  }

  /** The output byte by byte: the boundary line and the parts; nothing at all without parts. */
  lemma EncodedBytes(boundary: Bytes, parts: seq<Part>)
    ensures Encode(boundary, parts)
            == if parts == [] then [] else [45, 45] + boundary + [13, 10] + ShownParts(boundary, parts)
  {
    if parts != [] {
      FramingShape(boundary, parts);
      TailShown(boundary, parts);
      var e, shown := Encode(boundary, parts), ShownParts(boundary, parts);
      DelimiterShown(boundary, shown);
      assert [13, 10, 45, 45] == CRLF + [45, 45];
      hide *;
      WithoutBreak(e, [45, 45], boundary, [13, 10], shown);
    }
  }

  lemma WithoutBreak(e: Bytes, a: Bytes, b: Bytes, c: Bytes, d: Bytes)
    requires CRLF + e == CRLF + a + b + c + d
    ensures e == a + b + c + d
  {
    Assoc(CRLF, a, b);
    Assoc(CRLF, a + b, c);
    Assoc(CRLF, a + b + c, d);
    assert (CRLF + e)[2..] == e;
    assert (CRLF + (a + b + c + d))[2..] == a + b + c + d;
  }

  lemma DelimiterNonOverlapping(boundary: Bytes)
    requires 13 !in boundary
    ensures NonOverlapping(Delimiter(boundary))
  {
    var d := Delimiter(boundary);
    forall k | 1 <= k < |d| ensures d[k] != 13 {
      if k >= 4 { assert d[k] == boundary[k - 4]; }
    }
  }

  /** The splitter on one printed part: its content, unless a delimiter starts inside. */
  lemma NextPartIs(boundary: Bytes, p: Part, after: Bytes)
    requires 13 !in boundary
    ensures var d := Delimiter(boundary);
            var r := NextPart(boundary, CRLF + Content(p) + d + after);
            if Find(CRLF + Content(p), d).None? then r == Some((Content(p), after))
            else r.Some? ==> |r.value.0| < |Content(p)|
  {
    var d := Delimiter(boundary);
    var c := CRLF + Content(p);
    var s := c + d + after;
    assert |d| >= 4 && s[..2] == CRLF;
    assert s[2..|c|] == Content(p) && s[|c| + |d|..] == after;
    DelimiterNonOverlapping(boundary);
    hide Content, Delimiter, NextPart, NonOverlapping;
    FindFirstDelimiter(c, d, after);
    var i := Find(s, d).value;
    assert i + |d| <= |s| && (Find(c, d).Some? ==> i < |c|);
    hide Find, OccursAt;
    NextPartAt(boundary, s, i);
  }

  /** The splitter on a text without padding whose first delimiter is at `i`. */
  lemma NextPartAt(boundary: Bytes, s: Bytes, i: nat)
    requires CRLF <= s && Find(s, Delimiter(boundary)) == Some(i) && i + |Delimiter(boundary)| <= |s|
    ensures NextPart(boundary, s) == if i < 2 then None else Some((s[2..i], s[i + |Delimiter(boundary)|..]))
  {
    hide Find, OccursAt, Delimiter, SkipPadding;
    NoPadding(s);
    if i >= 2 {
      assert NextPart(boundary, s) == Some((s[2..i], s[i + |Delimiter(boundary)|..]));
    }
  }

  lemma NoPadding(s: Bytes)
    requires CRLF <= s
    ensures SkipPadding(s) == s
  {
    assert s[..2] == CRLF;
    assert s[0] == s[..2][0];
  }

  /** The reader on one printed part: exactly that part when it is recoverable, never that part otherwise. */
  lemma ParseOnePart(boundary: Bytes, p: Part, after: Bytes)
    requires 13 !in boundary
    ensures var rest := ParseParts(boundary, after);
            var r := ParseParts(boundary, CRLF + Content(p) + Delimiter(boundary) + after);
            if Recoverable(boundary, p) then
              r == if rest.Some? then Some([AsEntity(p)] + rest.value) else None
            else
              r.None? || (r.value != [] && r.value[0] != AsEntity(p))
  {
    var s := CRLF + Content(p) + Delimiter(boundary) + after;
    assert s[0] == 13;
    NextPartIs(boundary, p, after);
    ContentRoundTrip(p);
    var next := NextPart(boundary, s);
    if next.Some? && ParseEntity(next.value.0).Some? {
      ParseEntitySound(next.value.0);
    }
  }

  lemma {:induction false} TailRoundTrip(boundary: Bytes, parts: seq<Part>)
    requires 13 !in boundary
    ensures ParseParts(boundary, Tail(boundary, parts)) == Some(AsEntities(parts))
       <==> forall p :: p in parts ==> Recoverable(boundary, p)
    decreases |parts|
  {
    if parts == [] {
      assert DASHES <= DASHES + CRLF;
    } else {
      var rest := parts[1..];
      TailRoundTrip(boundary, rest);
      ParseOnePart(boundary, parts[0], Tail(boundary, rest));
      var r := ParseParts(boundary, Tail(boundary, rest));
      if r.Some? {
        ConsInjective(AsEntity(parts[0]), r.value, AsEntities(rest));
      }
      assert forall p :: p in parts <==> p == parts[0] || p in rest;
    }
  }

  lemma ConsInjective<T>(a: T, x: seq<T>, y: seq<T>)
    ensures [a] + x == [a] + y <==> x == y
  {
    assert ([a] + x)[1..] == x && ([a] + y)[1..] == y;
  }

  /** The round trip holds for a list of parts if and only if it is not empty and every part is recoverable. */
  lemma MultipartRoundTrip(boundary: Bytes, parts: seq<Part>)
    requires 13 !in boundary
    ensures ParseMultipart(boundary, Encode(boundary, parts)) == Some(AsEntities(parts))
       <==> parts != [] && forall p :: p in parts ==> Recoverable(boundary, p)
  {
    var d := Delimiter(boundary);
    if parts == [] {
      assert |CRLF + Encode(boundary, parts)| < |d|;
    } else {
      FramingShape(boundary, parts);
      FindAtStart(d, Tail(boundary, parts));
      TailRoundTrip(boundary, parts);
    }
  }

  lemma FindAtStart(d: Bytes, rest: Bytes)
    ensures Find(d + rest, d) == Some(0) && (d + rest)[0 + |d|..] == rest
  {
    assert (d + rest)[0..|d|] == d && OccursAt(d + rest, d, 0);
  }

  // ---------------------------------------------------------------------------------------------
  // Length
  // ---------------------------------------------------------------------------------------------

  function SumLengths(parts: seq<Part>): nat {
    if parts == [] then 0 else SumLengths(parts[..|parts| - 1]) + |parts[|parts| - 1].body|
  }

  function SumHeaderLengths(parts: seq<Part>): nat {
    if parts == [] then 0 else SumHeaderLengths(parts[..|parts| - 1]) + |HeaderBlock(parts[|parts| - 1].headers)|
  }

  lemma EncodedPartLength(boundary: Bytes, p: Part, initial: bool, final: bool)
    ensures |EncodePart(boundary, p, initial, final)|
         == |p.body| + |HeaderBlock(p.headers)| + |boundary|
            + (if initial then 4 else 6) + if final then |boundary| + 8 else 0
  {
  }

  /** The bytes that frame the first `n` of `total` parts. */
  function FramingLength(boundary: Bytes, n: nat, total: nat): int {
    (|boundary| + 4) + (n - 1) * (|boundary| + 6) + if n == total then |boundary| + 8 else 0
  }

  lemma FramingStep(boundary: Bytes, n: nat, total: nat)
    requires 1 <= n < total
    ensures FramingLength(boundary, n + 1, total)
         == FramingLength(boundary, n, total) + (|boundary| + 6) + if n + 1 == total then |boundary| + 8 else 0
  {
    var b := |boundary| + 6;
    assert n * b == (n - 1) * b + b;
  }

  lemma {:induction false} EncodeFirstLength(boundary: Bytes, parts: seq<Part>, n: nat)
    requires 0 < n <= |parts|
    ensures |EncodeFirst(boundary, parts, n)|
         == SumLengths(parts[..n]) + SumHeaderLengths(parts[..n]) + FramingLength(boundary, n, |parts|)
  {
    var p := parts[n - 1];
    SumsStep(parts, n);
    EncodedPartLength(boundary, p, n == 1, n == |parts|);
    EncodeFirstNext(boundary, parts, n - 1);
    EncodeFirstStart(boundary, parts);
    assert n == 1 ==> FramingLength(boundary, n, |parts|) == |boundary| + 4 + if n == |parts| then |boundary| + 8 else 0;
    hide *;
    if n > 1 {
      EncodeFirstLength(boundary, parts, n - 1);
      FramingStep(boundary, n - 1, |parts|);
    }
  }

  lemma SumsStep(parts: seq<Part>, n: nat)
    requires 0 < n <= |parts|
    ensures SumLengths(parts[..n]) == SumLengths(parts[..n - 1]) + |parts[n - 1].body|
    ensures SumHeaderLengths(parts[..n]) == SumHeaderLengths(parts[..n - 1]) + |HeaderBlock(parts[n - 1].headers)|
    ensures n == 1 ==> SumLengths(parts[..n - 1]) == SumHeaderLengths(parts[..n - 1]) == 0
  {
    assert parts[..n][..n - 1] == parts[..n - 1] && parts[..n][n - 1] == parts[n - 1];
  }

  /** The size of the output in terms of the bodies, the header blocks and the boundary. */
  lemma EncodedLength(boundary: Bytes, parts: seq<Part>)
    requires parts != []
    ensures |Encode(boundary, parts)|
         == SumLengths(parts) + SumHeaderLengths(parts)
            + (|boundary| + 4) + (|parts| - 1) * (|boundary| + 6) + (|boundary| + 8)
  {
    assert parts[..|parts|] == parts;
    EncodeFirstLength(boundary, parts, |parts|);
  }
}
