/** Nested parameter values: how they are flattened into components, and how components are regrouped. */
module QueryTree {
  import opened Common

  const OPEN: Byte := 91
  const CLOSE: Byte := 93

  /** `entries` lists a dictionary in the order in which it is iterated. */
  datatype Value =
    | Dict(entries: seq<Entry>)
    | Array(items: seq<Value>)
    | Number(text: Bytes)
    | Bool(b: bool)
    | Text(text: Bytes)

  datatype Entry = Entry(key: Bytes, value: Value)

  datatype ArrayEncoding = Brackets | NoBrackets
  datatype BoolEncoding = Numeric | Literal

  datatype Encoding = Encoding(arrays: ArrayEncoding, bools: BoolEncoding) {
    function ArrayKey(key: Bytes): Bytes {
      if arrays.Brackets? then key + [OPEN, CLOSE] else key
    }

    function BoolText(b: bool): Bytes {
      match bools
      case Numeric => if b then [49] else [48]
      case Literal => if b then [116, 114, 117, 101] else [102, 97, 108, 115, 101]
    }

    function LeafText(v: Value): Bytes
      requires !v.Dict? && !v.Array?
    {
      match v
      case Number(t) => t
      case Bool(b) => BoolText(b)
      case Text(t) => t
    }
  }

  type Pair = (Bytes, Bytes)

  /** The components of one value before escaping, one for each leaf, depth first. */
  function Components(e: Encoding, key: Bytes, v: Value): seq<Pair>
    decreases v, 1
  {
    match v
    case Dict(entries) => DictComponents(e, key, entries)
    case Array(items) => ArrayComponents(e, key, items)
    case _ => [(key, e.LeafText(v))]
  }

  function DictComponents(e: Encoding, key: Bytes, entries: seq<Entry>): seq<Pair>
    decreases entries, 0
  {
    if entries == [] then []
    else Components(e, key + [OPEN] + entries[0].key + [CLOSE], entries[0].value) + DictComponents(e, key, entries[1..])
  }

  function ArrayComponents(e: Encoding, key: Bytes, items: seq<Value>): seq<Pair>
    decreases items, 0
  {
    if items == [] then [] else Components(e, e.ArrayKey(key), items[0]) + ArrayComponents(e, key, items[1..])
  }

  /** The components of a whole parameter dictionary, in the order of its sorted keys. */
  function QueryComponents(e: Encoding, params: seq<Entry>): seq<Pair> {
    if params == [] then [] else Components(e, params[0].key, params[0].value) + QueryComponents(e, params[1..])
  }

  /** A dictionary has each key once. */
  predicate Proper(v: Value)
    decreases v, 1
  {
    match v
    case Dict(entries) => ProperEntries(entries)
    case Array(items) => forall x :: x in items ==> Proper(x)
    case _ => true
  }

  predicate ProperEntries(entries: seq<Entry>)
    decreases entries, 0
  {
    entries == [] || (
      && Proper(entries[0].value)
      && (forall x :: x in entries[1..] ==> x.key != entries[0].key)
      && ProperEntries(entries[1..]))
  }

  // ---------------------------------------------------------------------------------------------
  // The reader
  // ---------------------------------------------------------------------------------------------

  /** What a value means once types and iteration order are forgotten. */
  datatype Tree = Leaf(text: Bytes) | List(items: seq<Tree>) | Node(children: map<Bytes, Tree>)

  function Meaning(e: Encoding, v: Value): Tree
    decreases v, 1
  {
    match v
    case Dict(entries) => Node(MeaningEntries(e, entries))
    case Array(items) => List(MeaningItems(e, items))
    case _ => Leaf(e.LeafText(v))
  }

  function MeaningItems(e: Encoding, items: seq<Value>): (r: seq<Tree>)
    ensures |r| == |items| && forall i :: 0 <= i < |items| ==> r[i] == Meaning(e, items[i])
    decreases items, 0
  {
    if items == [] then [] else [Meaning(e, items[0])] + MeaningItems(e, items[1..])
  }

  function MeaningEntries(e: Encoding, entries: seq<Entry>): (m: map<Bytes, Tree>)
    ensures forall k :: k in m <==> exists x :: x in entries && x.key == k
    decreases entries, 0
  {
    if entries == [] then map[]
    else MeaningEntries(e, entries[1..])[entries[0].key := Meaning(e, entries[0].value)]
  }

  /** One step of a path: a dictionary key, or the empty brackets of an array element. */
  datatype Seg = Key(name: Bytes) | Elem

  type Row = (seq<Seg>, Bytes)

  /** Reads `[a][b][]`. */
  function ParseSegs(s: Bytes): Option<seq<Seg>>
    decreases |s|
  {
    if s == [] then Some([])
    else if s[0] != OPEN then None
    else
      match Find(s[1..], [CLOSE])
      case None => None
      case Some(j) =>
        var name := s[1..][..j];
        match ParseSegs(s[1..][j + 1..])
        case Some(rest) => Some([if name == [] then Elem else Key(name)] + rest)
        case None => None
  }

  /** Reads `key[a][b][]`: the text before the first bracket is the first key. */
  function ParsePath(s: Bytes): Option<seq<Seg>> {
    match Find(s, [OPEN])
    case None => Some([Key(s)])
    case Some(i) =>
      match ParseSegs(s[i..])
      case Some(segs) => Some([Key(s[..i])] + segs)
      case None => None
  }

  function ParseRows(pairs: seq<Pair>): Option<seq<Row>> {
    if pairs == [] then Some([])
    else
      match (ParsePath(pairs[0].0), ParseRows(pairs[1..]))
      case (Some(path), Some(rest)) => Some([(path, pairs[0].1)] + rest)
      case _ => None
  }

  function Weight(rows: seq<Row>): nat {
    if rows == [] then 0 else |rows[0].0| + Weight(rows[1..])
  }

  predicate AllKeyed(rows: seq<Row>) {
    forall r :: r in rows ==> r.0 != [] && r.0[0].Key?
  }

  function Names(rows: seq<Row>): set<Bytes>
    requires AllKeyed(rows)
  {
    set r | r in rows :: r.0[0].name
  }

  /** The rows below key `k`, with that key dropped. */
  function Under(rows: seq<Row>, k: Bytes): (u: seq<Row>)
    ensures Weight(u) + |u| <= Weight(rows)
    ensures AllKeyed(rows) && k in Names(rows) ==> |u| > 0
  {
    if rows == [] then []
    else
      var r := rows[0];
      var rest := Under(rows[1..], k);
      if r.0 != [] && r.0[0] == Key(k) then [(r.0[1..], r.1)] + rest else rest
  }

  function Collect(below: map<Bytes, Option<Tree>>): Option<Tree> {
    if forall k :: k in below ==> below[k].Some? then Some(Node(map k | k in below :: below[k].value)) else None
  }

  /** Rebuilds a tree: a single row without path is a leaf, rows that are all elements are a list in row
      order, rows that all start with a key are grouped by it. */
  function Regroup(rows: seq<Row>): Option<Tree>
    decreases Weight(rows)
  {
    if rows == [] then None
    else if |rows| == 1 && rows[0].0 == [] then Some(Leaf(rows[0].1))
    else if forall r :: r in rows ==> r.0 == [Elem] then
      Some(List(seq(|rows|, i requires 0 <= i < |rows| => Leaf(rows[i].1))))
    else if AllKeyed(rows) then Collect(map k | k in Names(rows) :: Regroup(Under(rows, k)))
    else None
  }

  function Decode(pairs: seq<Pair>): Option<Tree> {
    match ParseRows(pairs)
    case Some(rows) => if AllKeyed(rows) then Regroup(rows) else None
    case None => None
  }
}
