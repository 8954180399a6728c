/** The multipart format: what the encoder prints, and a reader for the grammar of section 5.1.1 of RFC 2046. */
module MultipartSpec {
  import opened Common

  const CRLF: Bytes := [13, 10]
  const DASHES: Bytes := [45, 45]

  datatype Header = Header(key: Bytes, value: Bytes)

  /** `headers` lists the dictionary in the order in which it is iterated. */
  datatype Part = Part(headers: seq<Header>, body: Bytes)

  datatype BoundaryType = Initial | Encapsulated | Final

  function BoundaryData(kind: BoundaryType, boundary: Bytes): Bytes {
    match kind
    case Initial => DASHES + boundary + CRLF
    case Encapsulated => CRLF + DASHES + boundary + CRLF
    case Final => CRLF + DASHES + boundary + DASHES + CRLF
  }

  function HeaderLine(h: Header): Bytes {
    h.key + [58, 32] + h.value + CRLF
  }

  function HeaderLines(headers: seq<Header>): Bytes {
    if headers == [] then [] else HeaderLines(headers[..|headers| - 1]) + HeaderLine(headers[|headers| - 1])
  }

  function HeaderBlock(headers: seq<Header>): Bytes {
    HeaderLines(headers) + CRLF
  }

  function Content(p: Part): Bytes {
    HeaderBlock(p.headers) + p.body
  }

  function EncodePart(boundary: Bytes, p: Part, initial: bool, final: bool): Bytes {
    BoundaryData(if initial then Initial else Encapsulated, boundary)
    + HeaderBlock(p.headers) + p.body
    + if final then BoundaryData(Final, boundary) else []
  }

  /** The output for the first `n` of `parts`; the whole output for `n == |parts|`. */
  function EncodeFirst(boundary: Bytes, parts: seq<Part>, n: nat): Bytes
    requires n <= |parts|
  {
    if n == 0 then []
    else EncodeFirst(boundary, parts, n - 1) + EncodePart(boundary, parts[n - 1], n == 1, n == |parts|)
  }

  lemma EncodeFirstStart(boundary: Bytes, parts: seq<Part>)
    ensures EncodeFirst(boundary, parts, 0) == []
    ensures EncodeFirst(boundary, parts, |parts|) == Encode(boundary, parts)
  {
  }

  lemma EncodeFirstNext(boundary: Bytes, parts: seq<Part>, n: nat)
    requires n < |parts|
    ensures EncodeFirst(boundary, parts, n + 1)
            == EncodeFirst(boundary, parts, n) + EncodePart(boundary, parts[n], n == 0, n == |parts| - 1)
  {
  }

  function Encode(boundary: Bytes, parts: seq<Part>): Bytes {
    EncodeFirst(boundary, parts, |parts|)
  }

  // ---------------------------------------------------------------------------------------------
  // A reader for section 5.1.1 of RFC 2046
  // ---------------------------------------------------------------------------------------------

  /** A body part as the grammar sees it: the blank line and the octets after it may be absent. */
  datatype Entity = Entity(headers: seq<Header>, body: Option<Bytes>)

  function Delimiter(boundary: Bytes): Bytes {
    CRLF + DASHES + boundary
  }

  /** `transport-padding`: linear white space after the boundary text. */
  function SkipPadding(s: Bytes): (t: Bytes)
    ensures |t| <= |s|
  {
    if s != [] && (s[0] == 32 || s[0] == 9) then SkipPadding(s[1..]) else s
  }

  /** A field name up to the first colon, one space, the field body. */
  function ParseHeader(line: Bytes): Option<Header> {
    match Find(line, [58])
    case None => None
    case Some(k) => if k + 1 < |line| && line[k + 1] == 32 then Some(Header(line[..k], line[k + 2..])) else None
  }

  function ParseEntity(x: Bytes): Option<Entity>
    decreases |x|
  {
    if x == [] then Some(Entity([], None))
    else if CRLF <= x then Some(Entity([], Some(x[2..])))
    else
      match Find(x, CRLF)
      case None => None
      case Some(j) =>
        match (ParseHeader(x[..j]), ParseEntity(x[j + 2..]))
        case (Some(h), Some(e)) => Some(Entity([h] + e.headers, e.body))
        case _ => None
  }

  /** Splits what follows a boundary text into the body part up to the next delimiter and what follows that.
      The CRLF that ends the boundary line also counts as the beginning of a line for the next delimiter. */
  function NextPart(boundary: Bytes, s: Bytes): (r: Option<(Bytes, Bytes)>)
    ensures r.Some? ==> |r.value.0| < |s| && |r.value.1| < |s|
  {
    var t := SkipPadding(s);
    if !(CRLF <= t) then None
    else
      match Find(t, Delimiter(boundary))
      case None => None
      case Some(i) => if i < 2 then None else Some((t[2..i], t[i + |Delimiter(boundary)|..]))
  }

  /** Reads what follows a boundary text: the close mark, or a body part, a delimiter and so on. */
  function ParseParts(boundary: Bytes, s: Bytes): Option<seq<Entity>>
    decreases |s|
  {
    if DASHES <= s then Some([])
    else
      match NextPart(boundary, s)
      case None => None
      case Some((part, after)) =>
        match (ParseEntity(part), ParseParts(boundary, after))
        case (Some(e), Some(rest)) => Some([e] + rest)
        case _ => None
  }

  /** The preamble before the first boundary line and the epilogue after the closing one are dropped; at
      least one body part is required. */
  function ParseMultipart(boundary: Bytes, data: Bytes): Option<seq<Entity>> {
    var s := CRLF + data;
    match Find(s, Delimiter(boundary))
    case None => None
    case Some(i) =>
      match ParseParts(boundary, s[i + |Delimiter(boundary)|..])
      case Some(es) => if es == [] then None else Some(es)
      case None => None
  }
}
