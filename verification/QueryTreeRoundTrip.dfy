/** Regrouping the flattened components rebuilds the tree, and exactly when. */
module QueryTreeRoundTrip {
  import opened Common
  import opened QueryTree

  /** A key that can stand between brackets: not empty, and without a closing bracket. */
  predicate NestedKey(k: Bytes) {
    k != [] && CLOSE !in k
  }

  predicate IsScalar(v: Value) {
    !v.Dict? && !v.Array?
  }

  /** What a value must satisfy to be rebuilt: no empty collection, only scalars in arrays, keys that can be read. */
  predicate Decodable(v: Value)
    decreases v
  {
    match v
    case Dict(entries) => entries != [] && forall x :: x in entries ==> NestedKey(x.key) && Decodable(x.value)
    case Array(items) => items != [] && forall x :: x in items ==> IsScalar(x)
    case _ => true
  }

  predicate DecodableParameters(params: seq<Entry>) {
    params != [] && forall x :: x in params ==> OPEN !in x.key && Decodable(x.value)
  }

  // ---------------------------------------------------------------------------------------------
  // Components are printed rows
  // ---------------------------------------------------------------------------------------------

  function Prefix(seg: Seg, rows: seq<Row>): seq<Row> {
    if rows == [] then [] else [([seg] + rows[0].0, rows[0].1)] + Prefix(seg, rows[1..])
  }

  /** The leaves of a value with their paths. */
  function Rows(e: Encoding, v: Value): seq<Row>
    decreases v, 1
  {
    match v
    case Dict(entries) => DictRows(e, entries)
    case Array(items) => ArrayRows(e, items)
    case _ => [([], e.LeafText(v))]
  }

  function DictRows(e: Encoding, entries: seq<Entry>): seq<Row>
    decreases entries, 0
  {
    if entries == [] then []
    else Prefix(Key(entries[0].key), Rows(e, entries[0].value)) + DictRows(e, entries[1..])
  }

  function ArrayRows(e: Encoding, items: seq<Value>): seq<Row>
    decreases items, 0
  {
    if items == [] then [] else Prefix(Elem, Rows(e, items[0])) + ArrayRows(e, items[1..])
  }

  function ShowSeg(seg: Seg): Bytes {
    if seg.Key? then [OPEN] + seg.name + [CLOSE] else [OPEN, CLOSE]
  }

  function ShowSegs(path: seq<Seg>): Bytes {
    if path == [] then [] else ShowSeg(path[0]) + ShowSegs(path[1..])
  }

  function ShowRows(key: Bytes, rows: seq<Row>): seq<Pair> {
    if rows == [] then [] else [(key + ShowSegs(rows[0].0), rows[0].1)] + ShowRows(key, rows[1..])
  }

  lemma ShowRowsStep(key: Bytes, rows: seq<Row>)
    ensures rows == [] ==> ShowRows(key, rows) == []
    ensures rows != [] ==> ShowRows(key, rows) == [(key + ShowSegs(rows[0].0), rows[0].1)] + ShowRows(key, rows[1..])
  {
  }

  lemma {:induction false} ShowRowsAppend(key: Bytes, a: seq<Row>, b: seq<Row>)
    ensures ShowRows(key, a + b) == ShowRows(key, a) + ShowRows(key, b)
  {
    hide *;
    ShowRowsStep(key, a);
    if a == [] {
      assert a + b == b && ShowRows(key, a) + ShowRows(key, b) == ShowRows(key, b);
    } else {
      ShowRowsAppend(key, a[1..], b);
      assert (a + b)[1..] == a[1..] + b && (a + b)[0] == a[0];
      ShowRowsStep(key, a + b);
      Assoc([(key + ShowSegs(a[0].0), a[0].1)], ShowRows(key, a[1..]), ShowRows(key, b));
    }
  }

  lemma {:induction false} ShowRowsPrefix(key: Bytes, seg: Seg, rows: seq<Row>)
    ensures ShowRows(key, Prefix(seg, rows)) == ShowRows(key + ShowSeg(seg), rows)
  {
    if rows != [] {
      var path := rows[0].0;
      assert ([seg] + path)[1..] == path;
      Assoc(key, ShowSeg(seg), ShowSegs(path));
      assert Prefix(seg, rows)[1..] == Prefix(seg, rows[1..]);
      ShowRowsPrefix(key, seg, rows[1..]);
    }
  }

  lemma {:induction false} ComponentsAreRows(e: Encoding, key: Bytes, v: Value)
    requires e.arrays.Brackets?
    ensures Components(e, key, v) == ShowRows(key, Rows(e, v))
    decreases v, 1
  {
    match v
    case Dict(entries) => DictComponentsAreRows(e, key, entries);
    case Array(items) => ArrayComponentsAreRows(e, key, items);
    case _ =>
      assert key + [] == key;
  }

  lemma {:induction false} DictComponentsAreRows(e: Encoding, key: Bytes, entries: seq<Entry>)
    requires e.arrays.Brackets?
    ensures DictComponents(e, key, entries) == ShowRows(key, DictRows(e, entries))
    decreases entries, 0
  {
    if entries != [] {
      var x := entries[0];
      var key' := key + [OPEN] + x.key + [CLOSE];
      ComponentsAreRows(e, key', x.value);
      DictComponentsAreRows(e, key, entries[1..]);
      assert key + ShowSeg(Key(x.key)) == key';
      ShowRowsPrefix(key, Key(x.key), Rows(e, x.value));
      ShowRowsAppend(key, Prefix(Key(x.key), Rows(e, x.value)), DictRows(e, entries[1..]));
    }
  }

  lemma {:induction false} ArrayComponentsAreRows(e: Encoding, key: Bytes, items: seq<Value>)
    requires e.arrays.Brackets?
    ensures ArrayComponents(e, key, items) == ShowRows(key, ArrayRows(e, items))
    decreases items, 0
  {
    if items != [] {
      ComponentsAreRows(e, e.ArrayKey(key), items[0]);
      ArrayComponentsAreRows(e, key, items[1..]);
      ShowRowsPrefix(key, Elem, Rows(e, items[0]));
      ShowRowsAppend(key, Prefix(Elem, Rows(e, items[0])), ArrayRows(e, items[1..]));
    }
  }

  // ---------------------------------------------------------------------------------------------
  // Printed paths are read back
  // ---------------------------------------------------------------------------------------------

  predicate CleanPath(path: seq<Seg>) {
    forall s :: s in path ==> s.Key? ==> NestedKey(s.name)
  }

  predicate CleanRows(rows: seq<Row>) {
    forall r :: r in rows ==> CleanPath(r.0)
  }

  /** A parsed row starts with a first key without an opening bracket, and goes on with a clean path. */
  predicate ParameterRows(rows: seq<Row>) {
    forall r :: r in rows ==> r.0 != [] && r.0[0].Key? && OPEN !in r.0[0].name && CleanPath(r.0[1..])
  }

  lemma ParseSegsStep(name: Bytes, rest: Bytes)
    requires CLOSE !in name && ParseSegs(rest).Some?
    ensures ParseSegs([OPEN] + (name + [CLOSE] + rest))
         == Some([if name == [] then Elem else Key(name)] + ParseSegs(rest).value)
  {
    var t := name + [CLOSE] + rest;
    var s := [OPEN] + t;
    assert s[1..] == t;
    NotFoundIffAbsent(name, CLOSE);
    FindFirstDelimiter(name, [CLOSE], rest);
    assert t[..|name|] == name && t[|name| + 1..] == rest;
  }

  lemma ShowSegShape(seg: Seg, name: Bytes, rest: Bytes)
    requires name == if seg.Key? then seg.name else []
    ensures ShowSeg(seg) + rest == [OPEN] + (name + [CLOSE] + rest)
  {
    assert ShowSeg(seg) == [OPEN] + (name + [CLOSE]);
    Assoc([OPEN], name + [CLOSE], rest);
  }

  lemma {:induction false} ParseSegsShow(path: seq<Seg>)
    requires CleanPath(path)
    ensures ParseSegs(ShowSegs(path)) == Some(path)
  {
    if path != [] {
      var seg, rest := path[0], path[1..];
      assert path == [seg] + rest;
      ParseSegsShow(rest);
      var name := if seg.Key? then seg.name else [];
      ShowSegShape(seg, name, ShowSegs(rest));
      ParseSegsStep(name, ShowSegs(rest));
      assert ShowSegs(path) == ShowSeg(seg) + ShowSegs(rest);
      assert (if name == [] then Elem else Key(name)) == seg;
      calc {
        ParseSegs(ShowSegs(path));
        ParseSegs([OPEN] + (name + [CLOSE] + ShowSegs(rest)));
        Some([seg] + rest);
        Some(path);
      }
    }
  }

  lemma ParsePathShow(head: Bytes, path: seq<Seg>)
    requires OPEN !in head && CleanPath(path)
    ensures ParsePath(head + ShowSegs(path)) == Some([Key(head)] + path)
  {
    NotFoundIffAbsent(head, OPEN);
    ShownStart(path);
    var shown := ShowSegs(path);
    hide ShowSegs, CleanPath, Find, OccursAt, ParseSegs;
    if path == [] {
      assert head + shown == head && [Key(head)] + path == [Key(head)];
    } else {
      ParseSegsShow(path);
      assert head + shown == head + [OPEN] + shown[1..];
      FindFirstDelimiter(head, [OPEN], shown[1..]);
      assert (head + shown)[..|head|] == head && (head + shown)[|head|..] == shown;
    }
  }

  lemma ShownStart(path: seq<Seg>)
    ensures path == [] ==> ShowSegs(path) == []
    ensures path != [] ==> ShowSegs(path) == [OPEN] + ShowSegs(path)[1..]
  {
  }

  lemma {:induction false} ParseRowsShow(head: Bytes, rows: seq<Row>)
    requires OPEN !in head && CleanRows(rows)
    ensures ParseRows(ShowRows(head, rows)) == Some(Prefix(Key(head), rows))
  {
    if rows != [] {
      ParsePathShow(head, rows[0].0);
      ParseRowsShow(head, rows[1..]);
      assert ShowRows(head, rows)[1..] == ShowRows(head, rows[1..]);
    }
  }

  lemma {:induction false} ParseRowsAppend(a: seq<Pair>, b: seq<Pair>)
    requires ParseRows(a).Some? && ParseRows(b).Some?
    ensures ParseRows(a + b) == Some(ParseRows(a).value + ParseRows(b).value)
  {
    var y := ParseRows(b).value;
    if a == [] {
      assert a + b == b && [] + y == y;
    } else {
      ParseRowsAppend(a[1..], b);
      assert (a + b)[1..] == a[1..] + b;
      var x := ParseRows(a[1..]).value;
      Assoc([(ParsePath(a[0].0).value, a[0].1)], x, y);
    }
  }

  lemma {:induction false} ParseSegsClean(s: Bytes)
    requires ParseSegs(s).Some?
    ensures CleanPath(ParseSegs(s).value)
    decreases |s|
  {
    if s != [] {
      var j := Find(s[1..], [CLOSE]).value;
      ParseSegsClean(s[1..][j + 1..]);
      NotFoundInSlice(s[1..], [CLOSE], 0, j);
      NotFoundIffAbsent(s[1..][..j], CLOSE);
      assert s[1..][0..j] == s[1..][..j];
    }
  }

  lemma {:induction false} ParseRowsClean(pairs: seq<Pair>)
    requires ParseRows(pairs).Some?
    ensures ParameterRows(ParseRows(pairs).value)
  {
    if pairs != [] {
      ParseRowsClean(pairs[1..]);
      var s := pairs[0].0;
      var path := ParsePath(s).value;
      NotFoundIffAbsent(s, OPEN);
      if Find(s, [OPEN]).Some? {
        var i := Find(s, [OPEN]).value;
        NotFoundInSlice(s, [OPEN], 0, i);
        assert s[0..i] == s[..i];
        NotFoundIffAbsent(s[..i], OPEN);
        ParseSegsClean(s[i..]);
        assert path[1..] == ParseSegs(s[i..]).value;
      }
    }
  }

  // ---------------------------------------------------------------------------------------------
  // Regrouping
  // ---------------------------------------------------------------------------------------------

  lemma {:induction false} PrefixFacts(seg: Seg, rows: seq<Row>)
    ensures |Prefix(seg, rows)| == |rows|
    ensures forall i :: 0 <= i < |rows| ==> Prefix(seg, rows)[i] == ([seg] + rows[i].0, rows[i].1)
  {
    if rows != [] { PrefixFacts(seg, rows[1..]); }
  }

  lemma PrefixStep(seg: Seg, rows: seq<Row>)
    requires rows != []
    ensures Prefix(seg, rows) == [([seg] + rows[0].0, rows[0].1)] + Prefix(seg, rows[1..])
  {
  }

  lemma {:induction false} UnderPrefix(k: Bytes, name: Bytes, rows: seq<Row>)
    ensures Under(Prefix(Key(name), rows), k) == if name == k then rows else []
  {
    if rows == [] {
    } else {
      UnderOneKeyed(rows[0], name, k);
      PrefixStep(Key(name), rows);
      hide *;
      var first, rest: seq<Row> := ([Key(name)] + rows[0].0, rows[0].1), Prefix(Key(name), rows[1..]);
      UnderPrefix(k, name, rows[1..]);
      UnderStep([first] + rest, k);
      assert ([first] + rest)[1..] == rest && ([first] + rest)[0] == first;
      assert rows == [rows[0]] + rows[1..];
    }
  }

  /** What a row contributes below key `k`. */
  function UnderOne(row: Row, k: Bytes): seq<Row> {
    if row.0 != [] && row.0[0] == Key(k) then [(row.0[1..], row.1)] else []
  }

  lemma UnderOneKeyed(row: Row, name: Bytes, k: Bytes)
    ensures UnderOne(([Key(name)] + row.0, row.1), k) == if name == k then [row] else []
  {
    assert ([Key(name)] + row.0)[1..] == row.0;
  }

  lemma UnderStep(rows: seq<Row>, k: Bytes)
    ensures rows == [] ==> Under(rows, k) == []
    ensures rows != [] ==> Under(rows, k) == UnderOne(rows[0], k) + Under(rows[1..], k)
  {
  }

  lemma {:induction false} UnderAppend(k: Bytes, a: seq<Row>, b: seq<Row>)
    ensures Under(a + b, k) == Under(a, k) + Under(b, k)
  {
    hide *;
    UnderStep(a, k);
    if a == [] {
      assert a + b == b && Under(a, k) + Under(b, k) == Under(b, k);
    } else {
      UnderAppend(k, a[1..], b);
      assert (a + b)[1..] == a[1..] + b && (a + b)[0] == a[0];
      UnderStep(a + b, k);
      Assoc(UnderOne(a[0], k), Under(a[1..], k), Under(b, k));
    }
  }

  /** Below a key that no entry has there is nothing; below an entry's key there are exactly its rows. */
  lemma {:induction false} UnderDictRows(e: Encoding, entries: seq<Entry>, k: Bytes)
    requires ProperEntries(entries)
    ensures (forall x :: x in entries ==> x.key != k) ==> Under(DictRows(e, entries), k) == []
    ensures forall x :: x in entries && x.key == k ==> Under(DictRows(e, entries), k) == Rows(e, x.value)
    decreases |entries|
  {
    if entries != [] {
      var x, rest := entries[0], entries[1..];
      assert DictRows(e, entries) == Prefix(Key(x.key), Rows(e, x.value)) + DictRows(e, rest);
      assert forall y :: y in entries <==> y == x || y in rest;
      hide *;
      UnderDictRows(e, rest, k);
      UnderPrefix(k, x.key, Rows(e, x.value));
      UnderAppend(k, Prefix(Key(x.key), Rows(e, x.value)), DictRows(e, rest));
    }
  }

  lemma {:induction false} DictRowsKeyed(e: Encoding, entries: seq<Entry>)
    ensures forall r :: r in DictRows(e, entries) ==>
              r.0 != [] && r.0[0].Key? && exists x :: x in entries && x.key == r.0[0].name
    decreases |entries|
  {
    if entries != [] {
      var x, rest := entries[0], entries[1..];
      DictRowsKeyed(e, rest);
      PrefixFacts(Key(x.key), Rows(e, x.value));
      var front, back := Prefix(Key(x.key), Rows(e, x.value)), DictRows(e, rest);
      forall r | r in DictRows(e, entries)
        ensures r.0 != [] && r.0[0].Key? && exists x :: x in entries && x.key == r.0[0].name
      {
        if r in front {
          assert x in entries && x.key == r.0[0].name;
        } else {
          var y :| y in rest && y.key == r.0[0].name;
          assert y in entries;
        }
      }
    }
  }

  lemma {:induction false} MeaningEntriesAt(e: Encoding, entries: seq<Entry>, x: Entry)
    requires ProperEntries(entries) && x in entries
    ensures x.key in MeaningEntries(e, entries) && MeaningEntries(e, entries)[x.key] == Meaning(e, x.value)
    ensures Proper(x.value)
    decreases |entries|
  {
    if x != entries[0] { MeaningEntriesAt(e, entries[1..], x); }
  }

  lemma {:induction false} RowsNonEmpty(e: Encoding, v: Value)
    requires Decodable(v)
    ensures Rows(e, v) != []
    decreases v
  {
    match v
    case Dict(entries) =>
      var x := entries[0];
      RowsNonEmpty(e, x.value);
      PrefixFacts(Key(x.key), Rows(e, x.value));
      assert |DictRows(e, entries)| >= |Prefix(Key(x.key), Rows(e, x.value))|;
    case Array(items) =>
      ScalarArrayRows(e, items);
    case _ =>
  }

  lemma {:induction false} ScalarArrayRows(e: Encoding, items: seq<Value>)
    requires forall x :: x in items ==> IsScalar(x)
    ensures |ArrayRows(e, items)| == |items|
    ensures forall i :: 0 <= i < |items| ==> IsScalar(items[i]) && ArrayRows(e, items)[i] == ([Elem], e.LeafText(items[i]))
  {
    if items != [] {
      ScalarArrayRows(e, items[1..]);
      assert items[0] in items;
      var row: Row := ([], e.LeafText(items[0]));
      assert Rows(e, items[0]) == [row];
      PrefixFacts(Elem, [row]);
      assert Prefix(Elem, [row]) == [([Elem], row.1)] by { assert [Elem] + [] == [Elem]; }
    }
  }

  lemma CollectGives(below: map<Bytes, Option<Tree>>, m: map<Bytes, Tree>)
    ensures Collect(below) == Some(Node(m)) <==> m.Keys == below.Keys && forall k :: k in m ==> below[k] == Some(m[k])
  {
    if forall k :: k in below ==> below[k].Some? {
      var r := map k | k in below :: below[k].value;
      assert r.Keys == below.Keys;
      if m.Keys == below.Keys && forall k :: k in m ==> below[k] == Some(m[k]) {
        assert r == m;
      }
    }
  }

  /** A keyed, non-empty list of rows is regrouped key by key. */
  lemma RegroupKeyed(rows: seq<Row>, m: map<Bytes, Tree>)
    requires rows != [] && AllKeyed(rows)
    ensures Regroup(rows) == Some(Node(m))
       <==> m.Keys == Names(rows) && forall k :: k in m ==> Regroup(Under(rows, k)) == Some(m[k])
  {
    assert rows[0] in rows && rows[0].0 != [Elem];
    var below := map k | k in Names(rows) :: Regroup(Under(rows, k));
    CollectGives(below, m);
    hide Collect, Weight, Under, Names;
  }

  lemma {:induction false} RegroupDict(e: Encoding, entries: seq<Entry>)
    requires entries != [] && ProperEntries(entries)
    requires forall x :: x in entries ==> Decodable(x.value)
    ensures AllKeyed(DictRows(e, entries))
    ensures Regroup(DictRows(e, entries)) == Some(Node(MeaningEntries(e, entries)))
    decreases entries, 0
  {
    var rows, m := DictRows(e, entries), MeaningEntries(e, entries);
    DictRowsKeyed(e, entries);
    forall k | k in m
      ensures k in Names(rows) && Regroup(Under(rows, k)) == Some(m[k])
    {
      var x :| x in entries && x.key == k;
      UnderDictRows(e, entries, k);
      MeaningEntriesAt(e, entries, x);
      RowsNonEmpty(e, x.value);
      UnderNamed(rows, k);
      RegroupRows(e, x.value);
    }
    forall k | k in Names(rows) ensures k in m {
      var r :| r in rows && r.0[0].name == k;
    }
    assert rows != [] by {
      assert entries[0].key in m;
    }
    RegroupKeyed(rows, m);
  }

  lemma {:induction false} UnderNamed(rows: seq<Row>, k: Bytes)
    requires AllKeyed(rows) && Under(rows, k) != []
    ensures k in Names(rows)
  {
    if rows[0].0[0] != Key(k) {
      UnderNamed(rows[1..], k);
    }
    assert rows[0] in rows;
  }

  /** A decodable value is rebuilt from its rows, whatever the order of its dictionary entries. */
  lemma {:induction false} RegroupRows(e: Encoding, v: Value)
    requires Proper(v) && Decodable(v)
    ensures Regroup(Rows(e, v)) == Some(Meaning(e, v))
    decreases v, 1
  {
    match v
    case Dict(entries) => RegroupDict(e, entries);
    case Array(items) =>
      ScalarArrayRows(e, items);
      var rows := ArrayRows(e, items);
      assert rows[0].0 == [Elem];
      assert forall r :: r in rows ==> r.0 == [Elem];
      assert seq(|rows|, i requires 0 <= i < |rows| => Leaf(rows[i].1)) == MeaningItems(e, items);
    case _ =>
  }

  lemma {:induction false} UnderClean(rows: seq<Row>, k: Bytes)
    requires forall r :: r in rows ==> r.0 != [] && CleanPath(r.0[1..])
    ensures CleanRows(Under(rows, k))
  {
    if rows != [] {
      UnderClean(rows[1..], k);
      assert rows[0] in rows;
    }
  }

  /** Whatever rows a tree was rebuilt from, if it is the meaning of a value then that value is decodable. */
  lemma {:induction false} RebuiltIsDecodable(e: Encoding, rows: seq<Row>, v: Value)
    requires Proper(v) && CleanRows(rows) && Regroup(rows) == Some(Meaning(e, v))
    ensures Decodable(v)
    decreases v
  {
    match v
    case Dict(entries) =>
      var m := MeaningEntries(e, entries);
      RegroupKeyed(rows, m);
      assert rows[0] in rows && rows[0].0[0].name in m;
      forall x | x in entries ensures NestedKey(x.key) && Decodable(x.value) {
        MeaningEntriesAt(e, entries, x);
        var r :| r in rows && r.0[0].name == x.key;
        assert r.0[0] in r.0;
        forall r | r in rows ensures CleanPath(r.0[1..]) {
          assert forall s :: s in r.0[1..] ==> s in r.0;
        }
        UnderClean(rows, x.key);
        RebuiltIsDecodable(e, Under(rows, x.key), x.value);
      }
    case Array(items) =>
      var list := seq(|rows|, i requires 0 <= i < |rows| => Leaf(rows[i].1));
      assert MeaningItems(e, items) == list;
      forall x | x in items ensures IsScalar(x) {
        var i :| 0 <= i < |items| && items[i] == x;
        assert list[i] == Meaning(e, x);
      }
    case _ =>
  }

  // ---------------------------------------------------------------------------------------------
  // The whole parameter dictionary
  // ---------------------------------------------------------------------------------------------

  lemma {:induction false} DecodableRowsClean(e: Encoding, v: Value)
    requires Decodable(v)
    ensures CleanRows(Rows(e, v))
    decreases v, 1
  {
    match v
    case Dict(entries) => DecodableDictClean(e, entries);
    case Array(items) => ScalarArrayRows(e, items);
    case _ =>
  }

  lemma {:induction false} DecodableDictClean(e: Encoding, entries: seq<Entry>)
    requires forall x :: x in entries ==> NestedKey(x.key) && Decodable(x.value)
    ensures CleanRows(DictRows(e, entries))
    decreases entries, 0
  {
    if entries != [] {
      DecodableRowsClean(e, entries[0].value);
      PrefixFacts(Key(entries[0].key), Rows(e, entries[0].value));
      DecodableDictClean(e, entries[1..]);
    }
  }

  lemma {:induction false} ParameterRowsParse(e: Encoding, params: seq<Entry>)
    requires e.arrays.Brackets?
    requires forall x :: x in params ==> OPEN !in x.key && Decodable(x.value)
    ensures ParseRows(QueryComponents(e, params)) == Some(DictRows(e, params))
  {
    if params != [] {
      var x := params[0];
      ComponentsAreRows(e, x.key, x.value);
      DecodableRowsClean(e, x.value);
      ParseRowsShow(x.key, Rows(e, x.value));
      ParameterRowsParse(e, params[1..]);
      ParseRowsAppend(Components(e, x.key, x.value), QueryComponents(e, params[1..]));
    }
  }

  /** The components rebuild the parameters if and only if the parameters are decodable. */
  lemma ComponentsRoundTrip(e: Encoding, params: seq<Entry>)
    requires e.arrays.Brackets? && ProperEntries(params)
    ensures Decode(QueryComponents(e, params)) == Some(Node(MeaningEntries(e, params)))
       <==> DecodableParameters(params)
  {
    var pairs, m := QueryComponents(e, params), MeaningEntries(e, params);
    if DecodableParameters(params) {
      ParameterRowsParse(e, params);
      RegroupDict(e, params);
    }
    if Decode(pairs) == Some(Node(m)) {
      var rows := ParseRows(pairs).value;
      ParseRowsClean(pairs);
      RegroupKeyed(rows, m);
      assert rows[0] in rows && rows[0].0[0].name in m;
      forall x | x in params ensures OPEN !in x.key && Decodable(x.value) {
        MeaningEntriesAt(e, params, x);
        var r :| r in rows && r.0[0].name == x.key;
        UnderClean(rows, x.key);
        RebuiltIsDecodable(e, Under(rows, x.key), x.value);
      }
    }
  }

  lemma DecodeOne(key: Bytes, text: Bytes)
    requires OPEN !in key
    ensures Decode([(key, text)]) == Some(Node(map[key := Leaf(text)]))
  {
    NotFoundIffAbsent(key, OPEN);
    var pairs: seq<Pair> := [(key, text)];
    var rows: seq<Row> := [([Key(key)], text)];
    assert ParsePath(key) == Some([Key(key)]);
    assert pairs[1..] == [] && ParseRows(pairs[1..]) == Some([]);
    var none: seq<Row> := [];
    assert ParseRows(pairs) == Some(rows) by {
      assert rows + none == rows;
    }
    assert rows[1..] == [] && Under(rows[1..], key) == [];
    assert rows[0].0[1..] == [];
    assert Under(rows, key) == [([], text)];
    assert rows[0] in rows && rows[0].0[0].name == key;
    assert forall r :: r in rows ==> r == rows[0];
    assert Names(rows) == {key};
    RegroupKeyed(rows, map[key := Leaf(text)]);
  }

  // ---------------------------------------------------------------------------------------------
  // Which components there are
  // ---------------------------------------------------------------------------------------------

  /** What a component of `v` under a key is: `[name]` is appended on the way into a dictionary, `[]` or nothing on the
      way into an array, and a leaf is written out. */
  ghost predicate Spelled(e: Encoding, key: Bytes, v: Value, p: Pair)
    decreases v
  {
    match v
    case Dict(entries) => exists x :: x in entries && Spelled(e, key + [91] + x.key + [93], x.value, p)
    case Array(items) =>
      var below := if e.arrays == Brackets then key + [91, 93] else key;
      exists x :: x in items && Spelled(e, below, x, p)
    case Number(t) => p == (key, t)
    case Text(t) => p == (key, t)
    case Bool(b) =>
      p == (key, if e.bools == Numeric then (if b then [49] else [48])
                 else if b then [116, 114, 117, 101] else [102, 97, 108, 115, 101])
  }

  /** The components of a value are its leaves, each under the key that spells out the way to it. */
  lemma {:induction false} ComponentsAreSpelled(e: Encoding, key: Bytes, v: Value, p: Pair)
    ensures p in Components(e, key, v) <==> Spelled(e, key, v, p)
    decreases v, 1
  {
    match v
    case Dict(entries) => EntriesAreSpelled(e, key, entries, p);
    case Array(items) => ItemsAreSpelled(e, key, items, p);
    case _ =>
  }

  lemma {:induction false} EntriesAreSpelled(e: Encoding, key: Bytes, entries: seq<Entry>, p: Pair)
    ensures p in DictComponents(e, key, entries)
       <==> exists x :: x in entries && Spelled(e, key + [91] + x.key + [93], x.value, p)
    decreases entries, 0
  {
    if entries != [] {
      ComponentsAreSpelled(e, key + [OPEN] + entries[0].key + [CLOSE], entries[0].value, p);
      EntriesAreSpelled(e, key, entries[1..], p);
      hide Components, DictComponents, Spelled;
      assert forall x :: x in entries <==> x == entries[0] || x in entries[1..];
      DictComponentsStep(e, key, entries);
    }
  }

  lemma DictComponentsStep(e: Encoding, key: Bytes, entries: seq<Entry>)
    requires entries != []
    ensures DictComponents(e, key, entries)
         == Components(e, key + [OPEN] + entries[0].key + [CLOSE], entries[0].value) + DictComponents(e, key, entries[1..])
  {
  }

  lemma {:induction false} ItemsAreSpelled(e: Encoding, key: Bytes, items: seq<Value>, p: Pair)
    ensures var below := if e.arrays == Brackets then key + [91, 93] else key;
            p in ArrayComponents(e, key, items) <==> exists x :: x in items && Spelled(e, below, x, p)
    decreases items, 0
  {
    if items == [] {
    } else {
      ComponentsAreSpelled(e, e.ArrayKey(key), items[0], p);
      ItemsAreSpelled(e, key, items[1..], p);
      var below := if e.arrays == Brackets then key + [91, 93] else key;
      assert e.ArrayKey(key) == below;
      hide Components, ArrayComponents, Spelled, Encoding.ArrayKey;
      ArrayComponentsStep(e, key, items);
      assert p in ArrayComponents(e, key, items)
        <==> p in Components(e, below, items[0]) || p in ArrayComponents(e, key, items[1..]);
      assert p in Components(e, below, items[0]) <==> Spelled(e, below, items[0], p);
      assert items == [items[0]] + items[1..];
      if x :| x in items && Spelled(e, below, x, p) {
        assert x == items[0] || x in items[1..];
      }
      if x :| x in items[1..] && Spelled(e, below, x, p) {
        assert x in items;
      }
    }
  }

  lemma ArrayComponentsStep(e: Encoding, key: Bytes, items: seq<Value>)
    requires items != []
    ensures ArrayComponents(e, key, items)
         == Components(e, e.ArrayKey(key), items[0]) + ArrayComponents(e, key, items[1..])
  {
  }

  // ---------------------------------------------------------------------------------------------
  // One component for each leaf
  // ---------------------------------------------------------------------------------------------

  function Leaves(v: Value): nat
    decreases v, 1
  {
    match v
    case Dict(entries) => EntryLeaves(entries)
    case Array(items) => ItemLeaves(items)
    case _ => 1
  }

  function EntryLeaves(entries: seq<Entry>): nat
    decreases entries, 0
  {
    if entries == [] then 0 else Leaves(entries[0].value) + EntryLeaves(entries[1..])
  }

  function ItemLeaves(items: seq<Value>): nat
    decreases items, 0
  {
    if items == [] then 0 else Leaves(items[0]) + ItemLeaves(items[1..])
  }

  lemma {:induction false} OneComponentPerLeaf(e: Encoding, key: Bytes, v: Value)
    ensures |Components(e, key, v)| == Leaves(v)
    decreases v, 1
  {
    match v
    case Dict(entries) => OneComponentPerEntryLeaf(e, key, entries);
    case Array(items) => OneComponentPerItemLeaf(e, key, items);
    case _ =>
  }

  lemma {:induction false} OneComponentPerEntryLeaf(e: Encoding, key: Bytes, entries: seq<Entry>)
    ensures |DictComponents(e, key, entries)| == EntryLeaves(entries)
    decreases entries, 0
  {
    if entries != [] {
      OneComponentPerLeaf(e, key + [OPEN] + entries[0].key + [CLOSE], entries[0].value);
      OneComponentPerEntryLeaf(e, key, entries[1..]);
    }
  }

  lemma {:induction false} OneComponentPerItemLeaf(e: Encoding, key: Bytes, items: seq<Value>)
    ensures |ArrayComponents(e, key, items)| == ItemLeaves(items)
    decreases items, 0
  {
    if items != [] {
      OneComponentPerLeaf(e, e.ArrayKey(key), items[0]);
      OneComponentPerItemLeaf(e, key, items[1..]);
    }
  }
}
