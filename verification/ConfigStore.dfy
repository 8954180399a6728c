/** The list of proxy configurations: what each operation makes of the list and of its saved copy. */
module ConfigStore {
  import opened Common

  type Id = int
  type Details = string

  datatype Entry = Entry(id: Id, details: Details, isSelected: bool)

  datatype Store = Store(configs: seq<Entry>, saved: seq<Entry>)

  function Save(configs: seq<Entry>): Store {
    Store(configs, configs)
  }

  /** The first configuration with this identifier. */
  function Find(configs: seq<Entry>, id: Id): (r: Option<nat>)
    ensures r.Some? ==> r.value < |configs| && configs[r.value].id == id && forall i :: 0 <= i < r.value ==> configs[i].id != id
    ensures r.None? ==> forall i :: 0 <= i < |configs| ==> configs[i].id != id
  {
    if configs == [] then None
    else if configs[0].id == id then Some(0)
    else
      var r := Find(configs[1..], id);
      if r.Some? then Some(r.value + 1) else None
  }

  /** The first configuration that is selected. */
  function FindSelected(configs: seq<Entry>): (r: Option<nat>)
    ensures r.Some? ==> r.value < |configs| && configs[r.value].isSelected
                        && forall i :: 0 <= i < r.value ==> !configs[i].isSelected
    ensures r.None? ==> forall i :: 0 <= i < |configs| ==> !configs[i].isSelected
  {
    if configs == [] then None
    else if configs[0].isSelected then Some(0)
    else
      var r := FindSelected(configs[1..]);
      if r.Some? then Some(r.value + 1) else None
  }

  /** All deselected but the one at index `i`. */
  function OnlySelected(configs: seq<Entry>, i: nat): (r: seq<Entry>)
    ensures |r| == |configs| && forall j :: 0 <= j < |r| ==> r[j] == configs[j].(isSelected := j == i)
  {
    seq(|configs|, j requires 0 <= j < |configs| => configs[j].(isSelected := j == i))
  }

  function Select(s: Store, id: Id): Store {
    var r := Find(s.configs, id);
    if r.None? || s.configs[r.value].isSelected then s else Save(OnlySelected(s.configs, r.value))
  }

  function Add(s: Store, e: Entry): Store {
    var configs := s.configs + [e];
    if |configs| == 1 then Select(Store(configs, s.saved), e.id) else Save(configs)
  }

  function Without(configs: seq<Entry>, id: Id): (r: seq<Entry>)
    ensures |r| <= |configs|
  {
    if configs == [] then []
    else
      var last := |configs| - 1;
      Without(configs[..last], id) + if configs[last].id != id then [configs[last]] else []
  }

  lemma {:induction false} WithoutMembers(configs: seq<Entry>, id: Id)
    ensures forall e :: e in Without(configs, id) <==> e in configs && e.id != id
  {
    if configs != [] {
      var last := |configs| - 1;
      WithoutMembers(configs[..last], id);
      assert forall e :: e in configs <==> e == configs[last] || e in configs[..last];
    }
  }

  function Delete(s: Store, id: Id): Store {
    var configs := Without(s.configs, id);
    if |configs| != |s.configs| then Save(configs) else s
  }

  function Update(s: Store, e: Entry): Store {
    var r := Find(s.configs, e.id);
    if r.Some? then Save(s.configs[r.value := e]) else s
  }

  // ---------------------------------------------------------------------------------------------
  // Single selection
  // ---------------------------------------------------------------------------------------------

  ghost predicate DistinctIds(configs: seq<Entry>) {
    forall i, j :: 0 <= i < j < |configs| ==> configs[i].id != configs[j].id
  }

  ghost predicate AtMostOne(configs: seq<Entry>) {
    forall i, j :: 0 <= i < j < |configs| ==> !(configs[i].isSelected && configs[j].isSelected)
  }

  ghost predicate HasSelected(configs: seq<Entry>) {
    exists i :: 0 <= i < |configs| && configs[i].isSelected
  }

  ghost predicate HasId(configs: seq<Entry>, id: Id) {
    exists i :: 0 <= i < |configs| && configs[i].id == id
  }

  /** At most one configuration is selected, identifiers differ, and the saved copy is up to date. */
  ghost predicate Valid(s: Store) {
    DistinctIds(s.configs) && AtMostOne(s.configs) && s.saved == s.configs
  }

  /** The new entry comes last, with its details, and is selected at least when it is the only one. The list is saved,
      unless that one was selected before. */
  lemma AddedConfigs(s: Store, e: Entry)
    ensures var added := s.configs + [e.(isSelected := e.isSelected || s.configs == [])];
            Add(s, e) == Store(added, if s.configs == [] && e.isSelected then s.saved else added)
  {
    if s.configs == [] {
      assert s.configs + [e] == [e] && Find([e], e.id) == Some(0);
      assert OnlySelected([e], 0) == [e.(isSelected := true)];
    }
  }

  /** Adding keeps a store valid if and only if the identifier is new, and the configuration is not selected already
      while another one is or while the store is empty: alone and selected, it would not even be saved. */
  lemma AddKeeps(s: Store, e: Entry)
    requires Valid(s)
    ensures Valid(Add(s, e)) <==>
      !HasId(s.configs, e.id) && !(e.isSelected && (s.configs == [] || HasSelected(s.configs)))
  {
    var configs := s.configs + [e];
    if s.configs == [] {
      assert configs == [e] && Find(configs, e.id) == Some(0);
      assert OnlySelected(configs, 0) == [e.(isSelected := true)];
    } else {
      var n := |s.configs|;
      assert configs[n] == e && forall i :: 0 <= i < n ==> configs[i] == s.configs[i];
      if HasId(s.configs, e.id) {
        var i :| 0 <= i < n && s.configs[i].id == e.id;
        assert configs[i].id == configs[n].id;
      }
      if HasSelected(s.configs) && e.isSelected {
        var i :| 0 <= i < n && s.configs[i].isSelected;
        assert configs[i].isSelected && configs[n].isSelected;
      }
    }
  }

  lemma SelectKeeps(s: Store, id: Id)
    requires Valid(s)
    ensures Valid(Select(s, id))
  {
  }

  lemma AppendKeeps(rest: seq<Entry>, e: Entry)
    requires DistinctIds(rest) && AtMostOne(rest)
    requires forall f :: f in rest ==> f.id != e.id && !(f.isSelected && e.isSelected)
    ensures DistinctIds(rest + [e]) && AtMostOne(rest + [e])
  {
    var t := rest + [e];
    forall i, j | 0 <= i < j < |t| ensures t[i].id != t[j].id && !(t[i].isSelected && t[j].isSelected) {
      assert t[i] == rest[i] && t[i] in rest;
      assert j < |rest| ==> t[j] == rest[j];
    }
  }

  lemma LastDiffers(configs: seq<Entry>, f: Entry)
    requires configs != [] && DistinctIds(configs) && AtMostOne(configs) && f in configs[..|configs| - 1]
    ensures var e := configs[|configs| - 1]; f.id != e.id && !(f.isSelected && e.isSelected)
  {
    var i :| 0 <= i < |configs| - 1 && configs[i] == f;
  }

  lemma {:induction false} WithoutKeeps(configs: seq<Entry>, id: Id)
    requires DistinctIds(configs) && AtMostOne(configs)
    ensures DistinctIds(Without(configs, id)) && AtMostOne(Without(configs, id))
  {
    if configs != [] {
      var last := |configs| - 1;
      var rest := Without(configs[..last], id);
      WithoutKeeps(configs[..last], id);
      WithoutMembers(configs[..last], id);
      if configs[last].id != id {
        forall f | f in rest ensures f.id != configs[last].id && !(f.isSelected && configs[last].isSelected) {
          LastDiffers(configs, f);
        }
        AppendKeeps(rest, configs[last]);
      } else {
        assert Without(configs, id) == rest;
      }
    }
  }

  lemma {:induction false} WithoutNothing(configs: seq<Entry>, id: Id)
    requires |Without(configs, id)| == |configs|
    ensures Without(configs, id) == configs
  {
    if configs != [] {
      WithoutNothing(configs[..|configs| - 1], id);
    }
  }

  lemma DeleteKeeps(s: Store, id: Id)
    requires Valid(s)
    ensures Valid(Delete(s, id))
  {
    WithoutKeeps(s.configs, id);
  }

  /** Updating with any object of a known identifier keeps a store valid if and only if a selected object does not
      replace an unselected one while another configuration is selected. */
  lemma UpdateKeeps(s: Store, e: Entry)
    requires Valid(s)
    ensures Valid(Update(s, e)) <==>
      !(e.isSelected && exists i :: 0 <= i < |s.configs| && s.configs[i].isSelected && s.configs[i].id != e.id)
      || !HasId(s.configs, e.id)
  {
    var r := Find(s.configs, e.id);
    if r.Some? {
      var t := s.configs[r.value := e];
      assert HasId(s.configs, e.id);
      if i :| 0 <= i < |s.configs| && s.configs[i].isSelected && s.configs[i].id != e.id {
        assert t[i].isSelected && i != r.value;
        assert e.isSelected ==> t[r.value].isSelected;
        assert e.isSelected ==> !AtMostOne(t);
      }
    }
  }

  // ---------------------------------------------------------------------------------------------
  // What the list holds, and which configuration is selected
  // ---------------------------------------------------------------------------------------------

  /** Reporting an entry that was edited in place is the whole of an edit. */
  lemma EditIsUpdate(s: Store, i: nat, details: Details)
    requires DistinctIds(s.configs) && i < |s.configs|
    ensures var e := s.configs[i].(details := details);
            Update(s.(configs := s.configs[i := e]), e) == Do(s, Edit(e.id, details))
  {
    var e := s.configs[i].(details := details);
    var t := s.configs[i := e];
    assert forall j :: 0 <= j < |t| ==> t[j].id == s.configs[j].id;
    FindUnique(s.configs, i);
    FindUnique(t, i);
    assert t[i := e] == t;
  }

  lemma FindUnique(configs: seq<Entry>, i: nat)
    requires DistinctIds(configs) && i < |configs|
    ensures Find(configs, configs[i].id) == Some(i) && HasId(configs, configs[i].id)
  {
  }

  /** The user's actions: a new configuration, a deletion, a choice, and an edit of a stored configuration. */
  datatype Action = New(id: Id, details: Details) | Remove(id: Id) | Choose(id: Id) | Edit(id: Id, details: Details)

  function Do(s: Store, a: Action): Store {
    match a
    case New(id, details) => Add(s, Entry(id, details, false))
    case Remove(id) => Delete(s, id)
    case Choose(id) => Select(s, id)
    case Edit(id, details) =>
      var r := Find(s.configs, id);
      if r.None? then s else Update(s, s.configs[r.value].(details := details))
  }

  ghost predicate Proper(s: Store, actions: seq<Action>)
    decreases |actions|
  {
    actions == []
    || ((actions[0].New? ==> !HasId(s.configs, actions[0].id)) && Proper(Do(s, actions[0]), actions[1..]))
  }

  function DoAll(s: Store, actions: seq<Action>): Store
    decreases |actions|
  {
    if actions == [] then s else DoAll(Do(s, actions[0]), actions[1..])
  }

  datatype Row = Row(id: Id, details: Details)

  /** What the user sees: the list, and which identifier is the selected one. */
  datatype View = View(rows: seq<Row>, selected: Option<Id>)

  ghost predicate Lists(rows: seq<Row>, id: Id) {
    exists i :: 0 <= i < |rows| && rows[i].id == id
  }

  ghost function Follow(v: View, a: Action): View {
    match a
    case New(id, details) => View(v.rows + [Row(id, details)], if v.rows == [] then Some(id) else v.selected)
    case Remove(id) => View(Drop(v.rows, id), if v.selected == Some(id) then None else v.selected)
    case Choose(id) => if Lists(v.rows, id) then v.(selected := Some(id)) else v
    case Edit(id, details) => v.(rows := Rewrite(v.rows, id, details))
  }

  function Drop(rows: seq<Row>, id: Id): seq<Row> {
    if rows == [] then []
    else
      var last := |rows| - 1;
      Drop(rows[..last], id) + if rows[last].id != id then [rows[last]] else []
  }

  function Rewrite(rows: seq<Row>, id: Id, details: Details): (r: seq<Row>)
    ensures |r| == |rows|
    ensures forall i :: 0 <= i < |r| ==> r[i] == Row(rows[i].id, if rows[i].id == id then details else rows[i].details)
  {
    seq(|rows|, i requires 0 <= i < |rows| => Row(rows[i].id, if rows[i].id == id then details else rows[i].details))
  }

  ghost function FollowAll(v: View, actions: seq<Action>): View
    decreases |actions|
  {
    if actions == [] then v else FollowAll(Follow(v, actions[0]), actions[1..])
  }

  function Rows(configs: seq<Entry>): (r: seq<Row>)
    ensures |r| == |configs| && forall i :: 0 <= i < |r| ==> r[i] == Row(configs[i].id, configs[i].details)
  {
    seq(|configs|, i requires 0 <= i < |configs| => Row(configs[i].id, configs[i].details))
  }

  /** The store holds what the user sees. */
  ghost predicate Agrees(s: Store, v: View) {
    && v.rows == Rows(s.configs)
    && (forall e :: e in s.configs ==> (e.isSelected <==> v.selected == Some(e.id)))
    && (v.selected.Some? ==> HasId(s.configs, v.selected.value))
  }

  lemma {:induction false} DropRows(configs: seq<Entry>, id: Id)
    ensures Rows(Without(configs, id)) == Drop(Rows(configs), id)
  {
    if configs != [] {
      var last := |configs| - 1;
      DropRows(configs[..last], id);
      assert Rows(configs)[..last] == Rows(configs[..last]);
    }
  }

  lemma NewAgrees(s: Store, v: View, id: Id, details: Details)
    requires Valid(s) && Agrees(s, v) && !HasId(s.configs, id)
    ensures var s' := Do(s, New(id, details));
            Valid(s') && Agrees(s', Follow(v, New(id, details)))
  {
    var e := Entry(id, details, false);
    AddKeeps(s, e);
    AddedConfigs(s, e);
    var e' := e.(isSelected := s.configs == []);
    var configs := s.configs + [e'];
    assert Rows(configs) == Rows(s.configs) + [Row(id, details)];
    assert configs[|s.configs|] == e';
    assert forall i :: 0 <= i < |s.configs| ==> configs[i] == s.configs[i];
    assert forall f :: f in configs <==> f == e' || f in s.configs;
  }

  lemma DeletedConfigs(s: Store, id: Id)
    ensures Delete(s, id).configs == Without(s.configs, id)
  {
    if |Without(s.configs, id)| == |s.configs| {
      WithoutNothing(s.configs, id);
    }
  }

  lemma RemoveAgrees(s: Store, v: View, id: Id)
    requires Valid(s) && Agrees(s, v)
    ensures var s' := Do(s, Remove(id));
            Valid(s') && Agrees(s', Follow(v, Remove(id)))
  {
    DeleteKeeps(s, id);
    DeletedConfigs(s, id);
    WithoutMembers(s.configs, id);
    DropRows(s.configs, id);
    var left := Without(s.configs, id);
    if v.selected.Some? && v.selected.value != id {
      var i :| 0 <= i < |s.configs| && s.configs[i].id == v.selected.value;
      assert s.configs[i] in left;
    }
  }

  lemma ChooseAgrees(s: Store, v: View, id: Id)
    requires Valid(s) && Agrees(s, v)
    ensures var s' := Do(s, Choose(id));
            Valid(s') && Agrees(s', Follow(v, Choose(id)))
  {
    SelectKeeps(s, id);
    var r := Find(s.configs, id);
    if r.Some? {
      assert v.rows[r.value].id == id && s.configs[r.value] in s.configs;
      var chosen := OnlySelected(s.configs, r.value);
      assert Rows(chosen) == v.rows;
      assert chosen[r.value].id == id;
    } else {
      assert !Lists(v.rows, id);
    }
  }

  /** An edit of the entry at `i` is an edit of its row, and leaves identifiers and selection as they are. */
  lemma EditedRow(s: Store, i: nat, details: Details)
    requires DistinctIds(s.configs) && i < |s.configs|
    ensures var e := s.configs[i]; var t := s.configs[i := e.(details := details)];
            && Do(s, Edit(e.id, details)) == Save(t)
            && Rows(t) == Rewrite(Rows(s.configs), e.id, details)
            && forall j :: 0 <= j < |t| ==> t[j].id == s.configs[j].id && t[j].isSelected == s.configs[j].isSelected
  {
    FindUnique(s.configs, i);
  }

  lemma EditAgrees(s: Store, v: View, id: Id, details: Details)
    requires Valid(s) && Agrees(s, v)
    ensures var s' := Do(s, Edit(id, details));
            Valid(s') && Agrees(s', Follow(v, Edit(id, details)))
  {
    var r := Find(s.configs, id);
    if r.Some? {
      EditedRow(s, r.value, details);
      SameSelection(s, v, Do(s, Edit(id, details)));
    } else {
      assert Rewrite(v.rows, id, details) == v.rows;
    }
  }

  lemma SameSelection(s: Store, v: View, s': Store)
    requires Valid(s) && Agrees(s, v) && s'.saved == s'.configs && |s'.configs| == |s.configs|
    requires forall i :: 0 <= i < |s.configs| ==>
      s'.configs[i].id == s.configs[i].id && s'.configs[i].isSelected == s.configs[i].isSelected
    ensures Valid(s') && Agrees(s', v.(rows := Rows(s'.configs)))
  {
    hide Rows;
    forall f | f in s'.configs ensures f.isSelected <==> v.selected == Some(f.id) {
      var i :| 0 <= i < |s'.configs| && s'.configs[i] == f;
      assert s.configs[i] in s.configs;
    }
    if v.selected.Some? {
      var i :| 0 <= i < |s.configs| && s.configs[i].id == v.selected.value;
      assert s'.configs[i].id == v.selected.value;
    }
  }

  /** Over every sequence of actions whose new identifiers are new: at most one configuration is selected, the saved
      copy is up to date, the list holds what was added, edited and not deleted, in the order of addition, and the
      selected configuration is the one that the choices, the first addition to an empty list, and the deletions
      determine. */
  lemma {:induction false} SelectionFollows(s: Store, v: View, actions: seq<Action>)
    requires Valid(s) && Agrees(s, v) && Proper(s, actions)
    ensures Valid(DoAll(s, actions)) && Agrees(DoAll(s, actions), FollowAll(v, actions))
    decreases |actions|
  {
    if actions != [] {
      match actions[0] {
        case New(id, details) => NewAgrees(s, v, id, details);
        case Remove(id) => RemoveAgrees(s, v, id);
        case Choose(id) => ChooseAgrees(s, v, id);
        case Edit(id, details) => EditAgrees(s, v, id, details);
      }
      SelectionFollows(Do(s, actions[0]), Follow(v, actions[0]), actions[1..]);
    }
  }
}
