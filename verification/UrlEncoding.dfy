/** The URL encoder's methods: escaping in one shot or in batches, flattening, and the query string. */
module UrlEncoding {
  import opened Common
  import opened QueryEscape
  import Tree = QueryTree
  import RoundTrip = QueryTreeRoundTrip

  const BATCH_SIZE: nat := 50

  /** Both branches of `escape`; the older one works through the characters `batchSize` at a time. */
  method Escape(text: seq<Character>, oneShot: bool, batchSize: nat := BATCH_SIZE) returns (escaped: Bytes)
    requires batchSize > 0
    ensures escaped == PercentEncode(Utf8(text))
    ensures forall c :: c in escaped ==>
      48 <= c <= 57 || 65 <= c <= 90 || 97 <= c <= 122 || c in {45, 46, 95, 126, 47, 63, 37}
  {
    forall c | c in PercentEncode(Utf8(text))
      ensures 48 <= c <= 57 || 65 <= c <= 90 || 97 <= c <= 122 || c in {45, 46, 95, 126, 47, 63, 37}
    {
      EscapedIsSafe(Utf8(text), c);
    }
    if oneShot {
      return PercentEncode(Utf8(text));
    }
    escaped := [];
    var index := 0;
    while index != |text|
      invariant 0 <= index <= |text|
      invariant escaped == PercentEncode(Utf8(text[..index]))
    {
      var endIndex := if index + batchSize <= |text| then index + batchSize else |text|;
      var substring := text[index..endIndex];
      assert text[..endIndex] == text[..index] + substring;
      Utf8Distributes(text[..index], substring);
      EncodeDistributes(Utf8(text[..index]), Utf8(substring));
      escaped := escaped + PercentEncode(Utf8(substring));
      index := endIndex;
    }
    assert text[..index] == text;
  }

  function Singletons(s: Bytes): seq<Character> {
    if s == [] then [] else [[s[0]]] + Singletons(s[1..])
  }

  lemma {:induction false} Utf8OfSingletons(s: Bytes)
    ensures Utf8(Singletons(s)) == s
  {
    if s != [] {
      var first: Character, rest := [s[0]], Singletons(s[1..]);
      var text: seq<Character> := [first] + rest;
      assert Singletons(s) == text;
      hide Singletons, Utf8;
      Utf8OfSingletons(s[1..]);
      Utf8Step(text);
      assert text[1..] == rest && text[0] == first;
      assert s == first + s[1..];
    }
  }

  /** Escapes a text given as bytes. By the contract of `Escape` the division into characters does not matter. */
  method EscapeBytes(s: Bytes, oneShot: bool) returns (escaped: Bytes)
    ensures escaped == PercentEncode(s)
  {
    Utf8OfSingletons(s);
    escaped := Escape(Singletons(s), oneShot);
  }

  lemma {:induction false} EscapePairsAppend(a: seq<Pair>, b: seq<Pair>)
    ensures EscapePairs(a + b) == EscapePairs(a) + EscapePairs(b)
  {
    if a == [] {
      assert a + b == b;
    } else {
      EscapePairsAppend(a[1..], b);
      assert (a + b)[1..] == a[1..] + b && (a + b)[0] == a[0];
      Assoc([(PercentEncode(a[0].0), PercentEncode(a[0].1))], EscapePairs(a[1..]), EscapePairs(b));
    }
  }

  /** The escaped components of a value, collected by recursion and loops over its collections. */
  method QueryComponents(e: Tree.Encoding, oneShot: bool, key: Bytes, value: Tree.Value) returns (components: seq<Pair>)
    ensures components == EscapePairs(Tree.Components(e, key, value))
    decreases value
  {
    components := [];
    match value
    case Dict(entries) =>
      for i := 0 to |entries|
        invariant components + EscapePairs(Tree.DictComponents(e, key, entries[i..]))
               == EscapePairs(Tree.DictComponents(e, key, entries))
      {
        var nestedKey := key + [Tree.OPEN] + entries[i].key + [Tree.CLOSE];
        var nested := QueryComponents(e, oneShot, nestedKey, entries[i].value);
        assert entries[i..][1..] == entries[i + 1..];
        Assoc(components, nested, EscapePairs(Tree.DictComponents(e, key, entries[i + 1..])));
        EscapePairsAppend(Tree.Components(e, nestedKey, entries[i].value),
                          Tree.DictComponents(e, key, entries[i + 1..]));
        components := components + nested;
      }
    case Array(items) =>
      for i := 0 to |items|
        invariant components + EscapePairs(Tree.ArrayComponents(e, key, items[i..]))
               == EscapePairs(Tree.ArrayComponents(e, key, items))
      {
        var nested := QueryComponents(e, oneShot, e.ArrayKey(key), items[i]);
        assert items[i..][1..] == items[i + 1..];
        Assoc(components, nested, EscapePairs(Tree.ArrayComponents(e, key, items[i + 1..])));
        EscapePairsAppend(Tree.Components(e, e.ArrayKey(key), items[i]),
                          Tree.ArrayComponents(e, key, items[i + 1..]));
        components := components + nested;
      }
    case _ =>
      var k := EscapeBytes(key, oneShot);
      var v := EscapeBytes(e.LeafText(value), oneShot);
      components := [(k, v)];
  }

  /** The query string. `params` lists the dictionary in the order of its sorted keys. */
  method Query(e: Tree.Encoding, oneShot: bool, params: seq<Tree.Entry>) returns (query: Bytes)
    ensures query == Join(EscapePairs(Tree.QueryComponents(e, params)))
  {
    var components: seq<Pair> := [];
    assert params[0..] == params;
    for i := 0 to |params|
      invariant components + EscapePairs(Tree.QueryComponents(e, params[i..]))
             == EscapePairs(Tree.QueryComponents(e, params))
    {
      var nested := QueryComponents(e, oneShot, params[i].key, params[i].value);
      assert params[i..][1..] == params[i + 1..];
      Assoc(components, nested, EscapePairs(Tree.QueryComponents(e, params[i + 1..])));
      EscapePairsAppend(Tree.Components(e, params[i].key, params[i].value),
                        Tree.QueryComponents(e, params[i + 1..]));
      components := components + nested;
    }
    assert params[|params|..] == [];
    assert components == EscapePairs(Tree.QueryComponents(e, params));
    query := Join(components);
  }

  /** Splits, percent-decodes and regroups a query string. */
  function DecodeQuery(query: Bytes): Option<Tree.Tree> {
    match ParseQuery(query)
    case Some(pairs) => Tree.Decode(pairs)
    case None => None
  }

  /** From nested parameters to the query string and back: the tree is rebuilt if and only if the parameters
      are decodable. */
  lemma ParametersRoundTrip(e: Tree.Encoding, params: seq<Tree.Entry>)
    requires e.arrays.Brackets? && Tree.ProperEntries(params)
    ensures DecodeQuery(Join(EscapePairs(Tree.QueryComponents(e, params))))
            == Some(Tree.Node(Tree.MeaningEntries(e, params)))
       <==> RoundTrip.DecodableParameters(params)
  {
    var pairs := Tree.QueryComponents(e, params);
    QueryRoundTrip(pairs);
    RoundTrip.ComponentsRoundTrip(e, params);
    if pairs == [] {
      assert Tree.Decode(pairs) == None;
      assert Join(EscapePairs(pairs)) == [];
    }
  }

  /** A leaf comes back as its text, whatever the encoding: a truth value as `1` or `0`, or as `true` or `false`. */
  lemma LeafRoundTrip(e: Tree.Encoding, key: Bytes, v: Tree.Value)
    requires 91 !in key && (v.Bool? || v.Number? || v.Text?)
    ensures DecodeQuery(Join(EscapePairs(Tree.QueryComponents(e, [Tree.Entry(key, v)]))))
            == Some(Tree.Node(map[key := Tree.Leaf(
                 match v
                 case Number(t) => t
                 case Text(t) => t
                 case Bool(b) =>
                   if e.bools == Tree.Numeric then (if b then [49] else [48])
                   else if b then [116, 114, 117, 101] else [102, 97, 108, 115, 101])]))
  {
    var pair := (key, e.LeafText(v));
    assert Tree.QueryComponents(e, [Tree.Entry(key, v)]) == [pair];
    QueryRoundTrip([pair]);
    RoundTrip.DecodeOne(key, e.LeafText(v));
  }

  /** The same value with its dictionaries, at any depth, iterated in another order. */
  ghost predicate Reordered(v: Tree.Value, v': Tree.Value)
    decreases v
  {
    match v
    case Dict(entries) =>
      && v'.Dict?
      && (forall x :: x in entries ==> exists y :: y in v'.entries && y.key == x.key && Reordered(x.value, y.value))
      && (forall y :: y in v'.entries ==> HasKey(entries, y.key))
    case Array(items) =>
      v'.Array? && |v'.items| == |items| && forall i :: 0 <= i < |items| ==> Reordered(items[i], v'.items[i])
    case _ => v == v'
  }

  ghost predicate HasMeaning(e: Tree.Encoding, entries: seq<Tree.Entry>, k: Bytes, t: Tree.Tree) {
    exists y :: y in entries && y.key == k && Tree.Meaning(e, y.value) == t
  }

  ghost predicate HasKey(entries: seq<Tree.Entry>, k: Bytes) {
    exists x :: x in entries && x.key == k
  }

  lemma MeaningAt(e: Tree.Encoding, entries: seq<Tree.Entry>, k: Bytes, t: Tree.Tree)
    requires Tree.ProperEntries(entries) && HasMeaning(e, entries, k, t)
    ensures var m := Tree.MeaningEntries(e, entries); k in m && m[k] == t
  {
    var y :| y in entries && y.key == k && Tree.Meaning(e, y.value) == t;
    RoundTrip.MeaningEntriesAt(e, entries, y);
  }

  lemma MeaningKeys(e: Tree.Encoding, entries: seq<Tree.Entry>, k: Bytes)
    ensures k in Tree.MeaningEntries(e, entries) <==> HasKey(entries, k)
  {
  }

  lemma SameMeaningAt(e: Tree.Encoding, xs: seq<Tree.Entry>, ys: seq<Tree.Entry>, k: Bytes)
    requires Tree.ProperEntries(xs) && Tree.ProperEntries(ys) && HasKey(xs, k)
    requires forall x :: x in xs ==> HasMeaning(e, ys, x.key, Tree.Meaning(e, x.value))
    ensures var m, m' := Tree.MeaningEntries(e, xs), Tree.MeaningEntries(e, ys);
            k in m && k in m' && m[k] == m'[k]
  {
    var x :| x in xs && x.key == k;
    var t := Tree.Meaning(e, x.value);
    MeaningAt(e, ys, k, t);
    assert HasMeaning(e, xs, k, t);
    MeaningAt(e, xs, k, t);
  }

  lemma SameMeanings(e: Tree.Encoding, xs: seq<Tree.Entry>, ys: seq<Tree.Entry>)
    requires Tree.ProperEntries(xs) && Tree.ProperEntries(ys)
    requires forall x :: x in xs ==> HasMeaning(e, ys, x.key, Tree.Meaning(e, x.value))
    requires forall y :: y in ys ==> HasKey(xs, y.key)
    ensures Tree.MeaningEntries(e, xs) == Tree.MeaningEntries(e, ys)
  {
    hide *;
    var m, m' := Tree.MeaningEntries(e, xs), Tree.MeaningEntries(e, ys);
    forall k ensures (k in m <==> k in m') && (k in m ==> m[k] == m'[k]) {
      MeaningKeys(e, xs, k);
      MeaningKeys(e, ys, k);
      if HasKey(xs, k) {
        SameMeaningAt(e, xs, ys, k);
      } else {
        NoKey(e, xs, ys, k);
      }
    }
  }

  lemma NoKey(e: Tree.Encoding, xs: seq<Tree.Entry>, ys: seq<Tree.Entry>, k: Bytes)
    requires !HasKey(xs, k) && forall y :: y in ys ==> HasKey(xs, y.key)
    ensures !HasKey(ys, k)
  {
  }

  /** Another order does not change what a value means. */
  lemma {:induction false} ReorderedMeaning(e: Tree.Encoding, v: Tree.Value, v': Tree.Value)
    requires Tree.Proper(v) && Tree.Proper(v') && Reordered(v, v')
    ensures Tree.Meaning(e, v) == Tree.Meaning(e, v')
    decreases v
  {
    match v
    case Dict(entries) =>
      forall x | x in entries ensures HasMeaning(e, v'.entries, x.key, Tree.Meaning(e, x.value)) {
        var y :| y in v'.entries && y.key == x.key && Reordered(x.value, y.value);
        RoundTrip.MeaningEntriesAt(e, entries, x);
        RoundTrip.MeaningEntriesAt(e, v'.entries, y);
        ReorderedMeaning(e, x.value, y.value);
      }
      SameMeanings(e, entries, v'.entries);
    case Array(items) =>
      forall i | 0 <= i < |items| ensures Tree.Meaning(e, items[i]) == Tree.Meaning(e, v'.items[i]) {
        ReorderedMeaning(e, items[i], v'.items[i]);
      }
      assert Tree.MeaningItems(e, items) == Tree.MeaningItems(e, v'.items);
    case _ =>
  }

  lemma {:induction false} UniqueKey(entries: seq<Tree.Entry>, x: Tree.Entry, y: Tree.Entry)
    requires Tree.ProperEntries(entries) && x in entries && y in entries && x.key == y.key
    ensures x == y && Tree.Proper(x.value)
    decreases |entries|
  {
    if x != entries[0] && y != entries[0] { UniqueKey(entries[1..], x, y); }
  }

  /** The entry of the other order that corresponds to `y`. */
  lemma Partner(entries: seq<Tree.Entry>, entries': seq<Tree.Entry>, y: Tree.Entry) returns (x: Tree.Entry)
    requires Tree.ProperEntries(entries) && Tree.ProperEntries(entries')
    requires Reordered(Tree.Dict(entries), Tree.Dict(entries')) && y in entries'
    ensures x in entries && x.key == y.key && Reordered(x.value, y.value)
    ensures Tree.Proper(x.value) && Tree.Proper(y.value)
  {
    assert HasKey(entries, y.key);
    x :| x in entries && x.key == y.key;
    var z :| z in entries' && z.key == x.key && Reordered(x.value, z.value);
    UniqueKey(entries', z, y);
    UniqueKey(entries, x, x);
  }

  /** Another order does not change whether a value can be rebuilt. */
  lemma {:induction false} ReorderedDecodable(v: Tree.Value, v': Tree.Value)
    requires Tree.Proper(v) && Tree.Proper(v') && Reordered(v, v') && RoundTrip.Decodable(v)
    ensures RoundTrip.Decodable(v')
    decreases v
  {
    match v
    case Dict(entries) =>
      forall y | y in v'.entries ensures RoundTrip.NestedKey(y.key) && RoundTrip.Decodable(y.value) {
        var x := Partner(entries, v'.entries, y);
        ReorderedDecodable(x.value, y.value);
      }
      assert entries[0] in entries;
    case Array(items) =>
      forall y | y in v'.items ensures RoundTrip.IsScalar(y) {
        var i :| 0 <= i < |v'.items| && v'.items[i] == y;
        assert items[i] in items && Reordered(items[i], y);
      }
    case _ =>
  }

  lemma ReorderedParameters(params: seq<Tree.Entry>, params': seq<Tree.Entry>)
    requires Tree.ProperEntries(params) && Tree.ProperEntries(params') && RoundTrip.DecodableParameters(params)
    requires Reordered(Tree.Dict(params), Tree.Dict(params'))
    ensures RoundTrip.DecodableParameters(params')
  {
    forall y | y in params' ensures Tree.OPEN !in y.key && RoundTrip.Decodable(y.value) {
      var x := Partner(params, params', y);
      ReorderedDecodable(x.value, y.value);
    }
    assert params[0] in params;
  }

  /** Whatever the order in which the dictionaries of decodable parameters are iterated, and although the query
      strings may differ, the same tree is rebuilt. */
  lemma OrderDoesNotMatter(e: Tree.Encoding, params: seq<Tree.Entry>, params': seq<Tree.Entry>)
    requires e.arrays.Brackets? && Tree.ProperEntries(params) && Tree.ProperEntries(params')
    requires RoundTrip.DecodableParameters(params) && Reordered(Tree.Dict(params), Tree.Dict(params'))
    ensures DecodeQuery(Join(EscapePairs(Tree.QueryComponents(e, params))))
            == DecodeQuery(Join(EscapePairs(Tree.QueryComponents(e, params'))))
            == Some(Tree.Meaning(e, Tree.Dict(params)))
  {
    ReorderedParameters(params, params');
    ParametersRoundTrip(e, params);
    ParametersRoundTrip(e, params');
    ReorderedMeaning(e, Tree.Dict(params), Tree.Dict(params'));
  }
}
