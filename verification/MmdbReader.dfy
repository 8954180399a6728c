/** The recursive reader over the flat entry list that the MaxMind library returns. */
module MmdbReader {
  import opened Common

  const MMDB_DATA_TYPE_UTF8_STRING: nat := 2
  const MMDB_DATA_TYPE_UINT32: nat := 6
  const MMDB_DATA_TYPE_MAP: nat := 7

  /** One node: `size` is the byte length of a string or the number of pairs of a map. */
  datatype EntryData = EntryData(hasData: bool, kind: nat, size: nat, text: Bytes, number: nat)

  /** The list with its nil end; nodes are never changed. */
  datatype EntryList = Nil | Cons(data: EntryData, next: EntryList)

  datatype Value = Str(text: Bytes) | Num(n: nat) | Dictionary(entries: map<Bytes, Value>)

  /** `Trap` is the forced unwrap of a missing node. */
  datatype Outcome = Trap | Done(rest: EntryList, out: Option<Value>)

  function Length(list: EntryList): nat {
    if list.Nil? then 0 else 1 + Length(list.next)
  }

  /** A C string ends at its first NUL. */
  function CString(s: Bytes): (r: Bytes)
    ensures 0 !in r
    ensures 0 !in s ==> r == s
  {
    if s == [] || s[0] == 0 then [] else [s[0]] + CString(s[1..])
  }

  function GetString(data: EntryData): (r: Bytes)
    ensures 0 !in r
  {
    if data.hasData && data.kind == MMDB_DATA_TYPE_UTF8_STRING then CString(data.text) else []
  }

  /** What `dump` returns on `list`. */
  function Dumped(list: EntryList): (o: Outcome)
    ensures o.Done? ==> Length(o.rest) <= Length(list)
    decreases Length(list)
  {
    if list.Nil? then Trap
    else if list.data.kind == MMDB_DATA_TYPE_MAP then DumpedFields(list.next, list.data.size, map[])
    else if list.data.kind == MMDB_DATA_TYPE_UTF8_STRING then Done(list.next, Some(Str(GetString(list.data))))
    else if list.data.kind == MMDB_DATA_TYPE_UINT32 then Done(list.next, Some(Num(list.data.number)))
    else Done(list, None)
  }

  /** The rest of a map: it stops at the end of the list, at an empty key or at an unsupported value. */
  function DumpedFields(list: EntryList, size: nat, dict: map<Bytes, Value>): (o: Outcome)
    ensures o.Done? ==> Length(o.rest) <= Length(list) && o.out.Some? && o.out.value.Dictionary?
    decreases Length(list)
  {
    if size == 0 || list.Nil? then Done(list, Some(Dictionary(dict)))
    else
      var key := GetString(list.data);
      match Dumped(list.next)
      case Trap => Trap
      case Done(rest, out) =>
        if out.Some? && key != [] then DumpedFields(rest, size - 1, dict[key := out.value])
        else Done(rest, Some(Dictionary(dict)))
  }

  lemma FieldsStep(list: EntryList, size: nat, dict: map<Bytes, Value>)
    requires size > 0 && list.Cons?
    ensures DumpedFields(list, size, dict)
            == match Dumped(list.next)
               case Trap => Trap
               case Done(rest, out) =>
                 if out.Some? && GetString(list.data) != [] then
                   DumpedFields(rest, size - 1, dict[GetString(list.data) := out.value])
                 else Done(rest, Some(Dictionary(dict)))
  {
  }

  lemma LengthNext(list: EntryList)
    requires list.Cons?
    ensures Length(list) == 1 + Length(list.next)
  {
  }

  lemma FieldsEnd(list: EntryList, dict: map<Bytes, Value>, size: nat)
    requires size == 0 || list.Nil?
    ensures DumpedFields(list, size, dict) == Done(list, Some(Dictionary(dict)))
  {
  }

  lemma DumpedAt(list: EntryList)
    requires list.Cons?
    ensures var d := list.data;
            Dumped(list)
            == if d.kind == MMDB_DATA_TYPE_MAP then DumpedFields(list.next, d.size, map[])
               else if d.kind == MMDB_DATA_TYPE_UTF8_STRING then Done(list.next, Some(Str(GetString(d))))
               else if d.kind == MMDB_DATA_TYPE_UINT32 then Done(list.next, Some(Num(d.number)))
               else Done(list, None)
  {
  }

  method Dump(list: EntryList) returns (o: Outcome)
    ensures o == Dumped(list)
    decreases Length(list)
  {
    if list.Nil? { return Trap; }
    DumpedAt(list);
    LengthNext(list);
    hide *;
    if list.data.kind == MMDB_DATA_TYPE_MAP {
      o := DumpFields(list.next, list.data.size);
    } else if list.data.kind == MMDB_DATA_TYPE_UTF8_STRING {
      var text := GetString(list.data);
      o := Done(list.next, Some(Str(text)));
    } else if list.data.kind == MMDB_DATA_TYPE_UINT32 {
      o := Done(list.next, Some(Num(list.data.number)));
    } else {
      o := Done(list, None);
    }
  }

  /** The loop over the pairs of a map. */
  method DumpFields(list: EntryList, count: nat) returns (o: Outcome)
    ensures o == DumpedFields(list, count, map[])
    decreases Length(list)
  {
    hide *;
    var cursor, size := list, count;
    var dict: map<Bytes, Value> := map[];
    while size > 0 && cursor != Nil
      invariant DumpedFields(cursor, size, dict) == DumpedFields(list, count, map[])
      invariant Length(cursor) <= Length(list)
      decreases Length(cursor)
    {
      FieldsStep(cursor, size, dict);
      LengthNext(cursor);
      var key := GetString(cursor.data);
      var sub := Dump(cursor.next);
      if sub.Trap? { return Trap; }
      cursor := sub.rest;
      if sub.out.None? || key == [] {
        return Done(cursor, Some(Dictionary(dict)));
      }
      dict, size := dict[key := sub.out.value], size - 1;
    }
    FieldsEnd(cursor, dict, size);
    o := Done(cursor, Some(Dictionary(dict)));
  }

  // ---------------------------------------------------------------------------------------------
  // The cursor
  // ---------------------------------------------------------------------------------------------

  predicate IsSuffix(s: EntryList, list: EntryList) {
    s == list || (list.Cons? && IsSuffix(s, list.next))
  }

  lemma {:induction false} SuffixTransitive(a: EntryList, b: EntryList, c: EntryList)
    requires IsSuffix(a, b) && IsSuffix(b, c)
    ensures IsSuffix(a, c)
  {
    if b != c { SuffixTransitive(a, b, c.next); }
  }

  /** On any list the reader traps or leaves its cursor at a suffix of the list. */
  lemma {:induction false} DumpLeavesSuffix(list: EntryList)
    requires Dumped(list).Done?
    ensures IsSuffix(Dumped(list).rest, list)
    decreases Length(list)
  {
    if list.data.kind == MMDB_DATA_TYPE_MAP {
      FieldsLeaveSuffix(list.next, list.data.size, map[]);
    }
  }

  lemma {:induction false} FieldsLeaveSuffix(list: EntryList, size: nat, dict: map<Bytes, Value>)
    requires DumpedFields(list, size, dict).Done?
    ensures IsSuffix(DumpedFields(list, size, dict).rest, list)
    decreases Length(list)
  {
    if size > 0 && list.Cons? {
      DumpLeavesSuffix(list.next);
      var key, o := GetString(list.data), Dumped(list.next);
      if o.out.Some? && key != [] {
        FieldsLeaveSuffix(o.rest, size - 1, dict[key := o.out.value]);
        SuffixTransitive(DumpedFields(list, size, dict).rest, o.rest, list.next);
      }
    }
  }

  function Append(list: EntryList, tail: EntryList): EntryList {
    if list.Nil? then tail else Cons(list.data, Append(list.next, tail))
  }

  /** What was read before the end of the list was reached does not depend on what follows. */
  lemma {:induction false} DumpIsLocal(list: EntryList, tail: EntryList)
    requires Dumped(list).Done? && Dumped(list).rest.Cons?
    ensures Dumped(Append(list, tail)) == Done(Append(Dumped(list).rest, tail), Dumped(list).out)
    decreases Length(list)
  {
    if list.data.kind == MMDB_DATA_TYPE_MAP {
      FieldsAreLocal(list.next, tail, list.data.size, map[]);
    }
  }

  lemma {:induction false} FieldsAreLocal(list: EntryList, tail: EntryList, size: nat, dict: map<Bytes, Value>)
    requires DumpedFields(list, size, dict).Done? && DumpedFields(list, size, dict).rest.Cons?
    ensures var o := DumpedFields(list, size, dict);
            DumpedFields(Append(list, tail), size, dict) == Done(Append(o.rest, tail), o.out)
    decreases Length(list)
  {
    if size > 0 && list.Cons? {
      var key, o := GetString(list.data), Dumped(list.next);
      DumpIsLocal(list.next, tail);
      if o.out.Some? && key != [] {
        FieldsAreLocal(o.rest, tail, size - 1, dict[key := o.out.value]);
      }
    }
  }

  // ---------------------------------------------------------------------------------------------
  // The round trip
  // ---------------------------------------------------------------------------------------------

  /** The data behind a list. */
  datatype Tree = Text(text: Bytes) | Number(n: nat) | Map(fields: seq<Field>)
  datatype Field = Field(key: Bytes, value: Tree)

  function StringNode(text: Bytes): EntryData {
    EntryData(true, MMDB_DATA_TYPE_UTF8_STRING, |text|, text, 0)
  }

  /** The preorder list of `t`, followed by `tail`. */
  function Flatten(t: Tree, tail: EntryList): EntryList
    decreases t, 1
  {
    match t
    case Text(text) => Cons(StringNode(text), tail)
    case Number(n) => Cons(EntryData(true, MMDB_DATA_TYPE_UINT32, 4, [], n), tail)
    case Map(fields) => Cons(EntryData(true, MMDB_DATA_TYPE_MAP, |fields|, [], 0), FlattenFields(fields, tail))
  }

  function FlattenFields(fields: seq<Field>, tail: EntryList): EntryList
    decreases fields, 0
  {
    if fields == [] then tail
    else Cons(StringNode(fields[0].key), Flatten(fields[0].value, FlattenFields(fields[1..], tail)))
  }

  function Keys(fields: seq<Field>): set<Bytes> {
    if fields == [] then {} else {fields[0].key} + Keys(fields[1..])
  }

  /** `v` holds exactly the data of `t`: in a dictionary each field once and nothing else. */
  predicate Represents(v: Value, t: Tree)
    decreases t
  {
    match t
    case Text(text) => v == Str(text)
    case Number(n) => v == Num(n)
    case Map(fields) =>
      && v.Dictionary?
      && v.entries.Keys == Keys(fields)
      && |v.entries| == |fields|
      && forall f :: f in fields ==> f.key in v.entries && Represents(v.entries[f.key], f.value)
  }

  predicate StringKept(s: Bytes) {
    0 !in s
  }

  /** What the data must satisfy to be read back: no NUL in a string, and in every map distinct, non-empty keys. */
  predicate WellFormed(t: Tree)
    decreases t
  {
    match t
    case Text(text) => StringKept(text)
    case Number(_) => true
    case Map(fields) =>
      && DistinctKeys(fields)
      && forall f :: f in fields ==> f.key != [] && StringKept(f.key) && WellFormed(f.value)
  }

  predicate DistinctKeys(fields: seq<Field>) {
    fields == [] || (fields[0].key !in Keys(fields[1..]) && DistinctKeys(fields[1..]))
  }

  lemma {:induction false} KeyCount(fields: seq<Field>)
    ensures |Keys(fields)| <= |fields|
    ensures |Keys(fields)| == |fields| <==> DistinctKeys(fields)
    ensures forall f :: f in fields ==> f.key in Keys(fields)
  {
    if fields != [] {
      KeyCount(fields[1..]);
      var rest := Keys(fields[1..]);
      if fields[0].key in rest {
        assert {fields[0].key} + rest == rest;
      }
    }
  }

  function Image(t: Tree): Value
    decreases t, 1
  {
    match t
    case Text(text) => Str(text)
    case Number(n) => Num(n)
    case Map(fields) => Dictionary(ImageFields(fields))
  }

  function ImageFields(fields: seq<Field>): map<Bytes, Value>
    decreases fields, 0
  {
    if fields == [] then map[] else map[fields[0].key := Image(fields[0].value)] + ImageFields(fields[1..])
  }

  lemma OverrideShifts(dict: map<Bytes, Value>, k: Bytes, v: Value, m: map<Bytes, Value>)
    ensures dict[k := v] + m == dict + (map[k := v] + m)
  {
  }

  lemma {:induction false} ReadsImage(t: Tree, tail: EntryList)
    requires WellFormed(t)
    ensures Dumped(Flatten(t, tail)) == Done(tail, Some(Image(t)))
    decreases t, 1
  {
    match t
    case Map(fields) =>
      FieldsReadPrefix(fields, 0, tail, map[]);
      FieldsEnd(tail, ImageFields(fields), 0);
      assert map[] + ImageFields(fields) == ImageFields(fields);
    case _ =>
  }

  lemma {:induction false} FirstField(fields: seq<Field>, tail: EntryList)
    requires fields != [] && StringKept(fields[0].key)
    ensures var f, list := fields[0], FlattenFields(fields, tail);
            && list.Cons? && GetString(list.data) == f.key
            && list.next == Flatten(f.value, FlattenFields(fields[1..], tail))
            && ImageFields(fields) == map[f.key := Image(f.value)] + ImageFields(fields[1..])
  {
    hide Flatten, Image;
  }

  /** Behind the fields read so far the reader goes on with `tail`. */
  lemma {:induction false} FieldsReadPrefix(fields: seq<Field>, more: nat, tail: EntryList, dict: map<Bytes, Value>)
    requires forall f :: f in fields ==> f.key != [] && StringKept(f.key) && WellFormed(f.value)
    ensures DumpedFields(FlattenFields(fields, tail), |fields| + more, dict)
         == DumpedFields(tail, more, dict + ImageFields(fields))
    decreases fields, 0
  {
    if fields == [] {
      assert dict + map[] == dict;
    } else {
      var f, rest := fields[0], fields[1..];
      var after := FlattenFields(rest, tail);
      var list := FlattenFields(fields, tail);
      FirstField(fields, tail);
      hide *;
      ReadsImage(f.value, after);
      FieldsStep(list, |fields| + more, dict);
      var dict' := dict[f.key := Image(f.value)];
      assert DumpedFields(list, |fields| + more, dict) == DumpedFields(after, |rest| + more, dict');
      FieldsReadPrefix(rest, more, tail, dict');
      OverrideShifts(dict, f.key, Image(f.value), ImageFields(rest));
      assert dict' + ImageFields(rest) == dict + ImageFields(fields);
    }
  }

  lemma {:induction false} ImageRepresents(t: Tree)
    requires WellFormed(t)
    ensures Represents(Image(t), t)
    decreases t, 1
  {
    match t
    case Map(fields) =>
      KeyCount(fields);
      ImageFieldsRepresent(fields);
      assert |Image(t).entries| == |Image(t).entries.Keys|;
    case _ =>
  }

  lemma {:induction false} ImageFieldsRepresent(fields: seq<Field>)
    requires DistinctKeys(fields) && forall f :: f in fields ==> WellFormed(f.value)
    ensures ImageFields(fields).Keys == Keys(fields)
    ensures forall f :: f in fields ==>
              f.key in ImageFields(fields) && Represents(ImageFields(fields)[f.key], f.value)
    decreases fields, 0
  {
    if fields != [] {
      ImageRepresents(fields[0].value);
      ImageFieldsRepresent(fields[1..]);
      KeyCount(fields[1..]);
    }
  }

  /** A value that the reader can produce on some list. */
  ghost predicate Producible(v: Value) {
    exists list :: Dumped(list).Done? && Dumped(list).out == Some(v)
  }

  ghost predicate ProducibleEntries(dict: map<Bytes, Value>) {
    forall k :: k in dict ==> k != [] && StringKept(k) && Producible(dict[k])
  }

  lemma ProducedBy(list: EntryList)
    requires Dumped(list).Done? && Dumped(list).out.Some?
    ensures Producible(Dumped(list).out.value)
  {
  }

  lemma KeyIsKept(data: EntryData)
    ensures StringKept(GetString(data))
  {
  }

  lemma {:induction false} FieldsProduce(list: EntryList, size: nat, dict: map<Bytes, Value>)
    requires ProducibleEntries(dict) && DumpedFields(list, size, dict).Done?
    ensures ProducibleEntries(DumpedFields(list, size, dict).out.value.entries)
    decreases Length(list)
  {
    if size == 0 || list.Nil? {
      FieldsEnd(list, dict, size);
    } else {
      FieldsStep(list, size, dict);
      LengthNext(list);
      hide DumpedFields, Dumped, Length, GetString;
      var key, o := GetString(list.data), Dumped(list.next);
      if o.out.Some? && key != [] {
        assert Producible(o.out.value) && StringKept(key) by { KeyIsKept(list.data); ProducedBy(list.next); }
        hide Producible, StringKept;
        FieldsProduce(o.rest, size - 1, dict[key := o.out.value]);
      }
    }
  }

  /** Whatever list a value was read from, data that it represents is well formed. */
  lemma {:induction false} ProducedIsWellFormed(v: Value, t: Tree)
    requires Producible(v) && Represents(v, t)
    ensures WellFormed(t)
    decreases t
  {
    var list :| Dumped(list).Done? && Dumped(list).out == Some(v);
    match t
    case Map(fields) =>
      FieldsProduce(list.next, list.data.size, map[]);
      KeyCount(fields);
      forall f | f in fields ensures f.key != [] && StringKept(f.key) && WellFormed(f.value) {
        ProducedIsWellFormed(v.entries[f.key], f.value);
      }
    case _ =>
  }

  /** Reading the list of a tree gives the tree back and stops right behind it, if and only if the tree is
      well formed. */
  lemma DumpRoundTrip(t: Tree, tail: EntryList)
    ensures var o := Dumped(Flatten(t, tail));
            o.Done? && o.rest == tail && o.out.Some? && Represents(o.out.value, t) <==> WellFormed(t)
  {
    var o := Dumped(Flatten(t, tail));
    if WellFormed(t) {
      ReadsImage(t, tail);
      ImageRepresents(t);
    }
    if o.Done? && o.out.Some? && Represents(o.out.value, t) {
      ProducedIsWellFormed(o.out.value, t);
    }
  }

  // ---------------------------------------------------------------------------------------------
  // Maps that cannot be read to their end
  // ---------------------------------------------------------------------------------------------

  /** The list of a map that announces `more` pairs than `fields`, which are followed by `tail`. */
  function Announcing(fields: seq<Field>, more: nat, tail: EntryList): EntryList {
    Cons(EntryData(true, 7, |fields| + more, [], 0), FlattenFields(fields, tail))
  }

  lemma {:induction false} AnnouncedReads(fields: seq<Field>, more: nat, tail: EntryList)
    requires WellFormed(Map(fields))
    ensures Dumped(Announcing(fields, more, tail)) == DumpedFields(tail, more, ImageFields(fields))
    ensures Represents(Dictionary(ImageFields(fields)), Map(fields))
  {
    WellFormedFields(fields);
    ImageIsDictionary(fields);
    DumpedAnnouncing(fields, more, tail);
    hide *;
    ImageRepresents(Map(fields));
    FieldsReadPrefix(fields, more, tail, map[]);
    assert map[] + ImageFields(fields) == ImageFields(fields);
  }

  lemma {:induction false} DumpedAnnouncing(fields: seq<Field>, more: nat, tail: EntryList)
    ensures Dumped(Announcing(fields, more, tail)) == DumpedFields(FlattenFields(fields, tail), |fields| + more, map[])
  {
    hide FlattenFields, DumpedFields, Length;
  }

  lemma {:induction false} WellFormedFields(fields: seq<Field>)
    requires WellFormed(Map(fields))
    ensures forall f :: f in fields ==> f.key != [] && StringKept(f.key) && WellFormed(f.value)
  {
    hide StringKept;
  }

  lemma {:induction false} ImageIsDictionary(fields: seq<Field>)
    ensures Image(Map(fields)) == Dictionary(ImageFields(fields))
  {
    hide ImageFields;
  }

  /** A value that is neither a string nor a number nor a map ends its map: exactly the fields before it are kept, and
      the cursor stays at that value. */
  lemma {:induction false} UnsupportedValueEnds(fields: seq<Field>, more: nat, key: EntryData, value: EntryData, tail: EntryList)
    requires WellFormed(Map(fields)) && more > 0
    requires value.kind !in {2, 6, 7}
    ensures var o := Dumped(Announcing(fields, more, Cons(key, Cons(value, tail))));
            o.Done? && o.rest == Cons(value, tail) && o.out.Some? && Represents(o.out.value, Map(fields))
  {
    var rest := Cons(key, Cons(value, tail));
    AnnouncedReads(fields, more, rest);
    hide *;
    FieldsStep(rest, more, ImageFields(fields));
    DumpedAt(Cons(value, tail));
  }

  /** A key that is not a string, or is empty, ends its map behind its value, which is lost. */
  lemma {:induction false} EmptyKeyEnds(fields: seq<Field>, more: nat, key: EntryData, value: Tree, tail: EntryList)
    requires WellFormed(Map(fields)) && WellFormed(value) && more > 0
    requires !key.hasData || key.kind != 2 || key.text == [] || key.text[0] == 0
    ensures var o := Dumped(Announcing(fields, more, Cons(key, Flatten(value, tail))));
            o.Done? && o.rest == tail && o.out.Some? && Represents(o.out.value, Map(fields))
  {
    var rest := Cons(key, Flatten(value, tail));
    AnnouncedReads(fields, more, rest);
    assert GetString(key) == [];
    hide *;
    ReadsImage(value, tail);
    FieldsStep(rest, more, ImageFields(fields));
  }

  /** A list that ends after a field ends the map there; one that ends after a key traps. */
  lemma {:induction false} ListEnds(fields: seq<Field>, more: nat, key: EntryData)
    requires WellFormed(Map(fields)) && more > 0
    ensures var o := Dumped(Announcing(fields, more, Nil));
            o.Done? && o.rest == Nil && o.out.Some? && Represents(o.out.value, Map(fields))
    ensures Dumped(Announcing(fields, more, Cons(key, Nil))) == Trap
  {
    AnnouncedReads(fields, more, Nil);
    AnnouncedReads(fields, more, Cons(key, Nil));
    FieldsEnd(Nil, ImageFields(fields), more);
    FieldsStep(Cons(key, Nil), more, ImageFields(fields));
    assert Dumped(Nil) == Trap;
  }
}
