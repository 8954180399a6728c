/** The store of configuration objects, which its users share and edit in place. */
module DataManager {
  import opened Common
  import opened ConfigStore

  class Config {
    const id: Id
    var details: Details
    var isSelected: bool

    constructor (id: Id, details: Details)
      ensures State() == Entry(id, details, false)
    {
      this.id, this.details, isSelected := id, details, false;
    }

    function State(): Entry
      reads this
    {
      Entry(id, details, isSelected)
    }

    /** `update(with:)`: the selection is not copied. */
    method Update(details: Details)
      modifies `details
      ensures State() == old(State()).(details := details)
    {
      this.details := details;
    }
  }

  function Entries(configs: seq<Config>): (r: seq<Entry>)
    reads configs
    ensures |r| == |configs| && forall i :: 0 <= i < |r| ==> r[i] == configs[i].State()
  {
    seq(|configs|, i requires 0 <= i < |configs| reads configs => configs[i].State())
  }

  /** The first selected configuration, if any. */
  function FirstSelected(configs: seq<Config>): (c: Config?)
    reads configs
  {
    var r := FindSelected(Entries(configs));
    if r.None? then null else configs[r.value]
  }

  /** Selecting this identifier changes something. */
  ghost predicate Selectable(s: Store, id: Id) {
    var r := ConfigStore.Find(s.configs, id);
    r.Some? && !s.configs[r.value].isSelected
  }

  /** No object is listed twice. */
  ghost predicate Distinct(cs: seq<Config>) {
    forall i, j :: 0 <= i < j < |cs| ==> cs[i] != cs[j]
  }

  /** The configurations with another identifier, in order. */
  function Others(cs: seq<Config>, id: Id): seq<Config> {
    if cs == [] then []
    else
      var last := |cs| - 1;
      Others(cs[..last], id) + if cs[last].id != id then [cs[last]] else []
  }

  lemma {:induction false} OthersDistinct(cs: seq<Config>, id: Id)
    requires Distinct(cs)
    ensures Distinct(Others(cs, id)) && forall c :: c in Others(cs, id) ==> c in cs
  {
    if cs != [] {
      var last := |cs| - 1;
      OthersDistinct(cs[..last], id);
      assert cs[last] !in cs[..last];
    }
  }

  lemma {:induction false} OthersEntries(cs: seq<Config>, id: Id)
    ensures Entries(Others(cs, id)) == ConfigStore.Without(Entries(cs), id)
  {
    if cs != [] {
      var last := |cs| - 1;
      OthersEntries(cs[..last], id);
      assert Entries(cs)[..last] == Entries(cs[..last]);
      var rest := Others(cs[..last], id);
      assert Entries(rest + [cs[last]]) == Entries(rest) + [cs[last].State()];
    }
  }

  class DataManager {
    var configs: seq<Config>
    var saved: seq<Entry>
    /** The two relays, once they have been created. */
    var rxConfigs: Option<seq<Config>>
    var selectedConfig: Option<Config?>

    constructor (loaded: seq<Config>)
      requires Distinct(loaded)
      ensures Objects() && Published() && configs == loaded && World() == ConfigStore.Save(Entries(loaded))
    {
      configs, saved, rxConfigs, selectedConfig := loaded, Entries(loaded), None, None;
    }

    ghost predicate Objects()
      reads this
    {
      Distinct(configs)
    }

    ghost function World(): Store
      reads this, configs
    {
      Store(Entries(configs), saved)
    }

    /** The relays that exist show the list and its selected configuration. */
    ghost predicate Published()
      reads this, configs
    {
      && (rxConfigs.Some? ==> rxConfigs.value == configs)
      && (selectedConfig.Some? ==> selectedConfig.value == FirstSelected(configs))
    }

    method Save()
      modifies `saved, `rxConfigs, `selectedConfig
      ensures World() == ConfigStore.Save(Entries(configs)) && Published()
      ensures rxConfigs.Some? && selectedConfig.Some?
    {
      saved := Entries(configs);
      Notify();
    }

    method Notify()
      modifies `rxConfigs, `selectedConfig
      ensures rxConfigs == Some(configs) && selectedConfig == Some(FirstSelected(configs))
    {
      rxConfigs := Some(configs);
      selectedConfig := Some(FirstSelected(configs));
    }

    method FindIndex(id: Id) returns (r: Option<nat>)
      ensures r == ConfigStore.Find(Entries(configs), id)
    {
      for i := 0 to |configs|
        invariant forall j :: 0 <= j < i ==> Entries(configs)[j].id != id
      {
        if configs[i].id == id {
          return Some(i);
        }
      }
      return None;
    }

    /** Deselects every configuration but the one at `index`. */
    method SelectOnly(index: nat)
      requires Objects() && index < |configs|
      modifies configs
      ensures Entries(configs) == OnlySelected(old(Entries(configs)), index)
    {
      for i := 0 to |configs|
        invariant forall j :: 0 <= j < i ==> configs[j].State() == old(configs[j].State()).(isSelected := false)
        invariant forall j :: i <= j < |configs| ==> configs[j].State() == old(configs[j].State())
      {
        configs[i].isSelected := false;
      }
      configs[index].isSelected := true;
    }

    method SelectAndSave(index: nat)
      requires Objects() && index < |configs|
      modifies `saved, `rxConfigs, `selectedConfig, configs
      ensures World() == ConfigStore.Save(OnlySelected(old(Entries(configs)), index)) && Published()
    {
      SelectOnly(index);
      Save();
    }

    method SelecteConfig(config: Config)
      requires Objects()
      modifies `saved, `rxConfigs, `selectedConfig, configs
      ensures Objects() && World() == Select(old(World()), config.id)
      ensures old(Published()) || Selectable(old(World()), config.id) ==> Published()
    {
      hide FirstSelected, OnlySelected;
      var r := FindIndex(config.id);
      if r.Some? {
        assert Entries(configs)[r.value].isSelected == configs[r.value].isSelected;
        if !configs[r.value].isSelected {
          SelectAndSave(r.value);
        }
      }
    }

    /** The first configuration of all is selected; it is saved and published by being selected, unless it is
        selected already. */
    method AddConfig(config: Config)
      requires Objects()
      modifies this, configs, config
      ensures configs == old(configs) + [config] && World() == Add(old(World()), old(config.State()))
      ensures config.State() == old(config.State()).(isSelected := old(config.isSelected || configs == []))
      ensures forall i :: 0 <= i < |old(configs)| ==> unchanged(old(configs)[i])
      ensures config !in old(configs) ==> Objects()
      ensures (old(configs) == [] && old(config.isSelected)) || Published()
    {
      ghost var w, e := World(), config.State();
      AddedConfigs(w, e);
      configs := configs + [config];
      assert Entries(configs) == w.configs + [e];
      if |configs| == 1 {
        SelecteConfig(config);
      } else {
        Save();
      }
    }

    method DeleteConfig(config: Config)
      requires Objects()
      modifies this
      ensures Objects() && World() == Delete(old(World()), config.id)
      ensures old(Published()) ==> Published()
    {
      var newConfigs := Others(configs, config.id);
      OthersDistinct(configs, config.id);
      OthersEntries(configs, config.id);
      if |newConfigs| != |configs| {
        configs := newConfigs;
        Save();
      }
    }

    /** Puts `config` in the place of the first configuration with its identifier. */
    method UpdateConfig(config: Config)
      modifies this
      ensures World() == ConfigStore.Update(old(World()), old(config.State()))
      ensures var r := ConfigStore.Find(old(Entries(configs)), config.id);
              configs == if r.Some? then old(configs)[r.value := config] else old(configs)
      ensures old(Published()) || HasId(old(Entries(configs)), config.id) ==> Published()
    {
      ghost var es := Entries(configs);
      var r := FindIndex(config.id);
      if r.Some? {
        configs := configs[r.value := config];
        assert Entries(configs) == es[r.value := config.State()];
        Save();
      }
    }

    /** The edit of the shared object as such: the list sees it at the object's place only. */
    method EditInPlace(config: Config, ghost i: nat, details: Details)
      requires Objects() && i < |configs| && configs[i] == config
      modifies config`details
      ensures config.State() == old(config.State()).(details := details)
      ensures Entries(configs) == old(Entries(configs))[i := config.State()]
    {
      config.Update(details);
    }

    /** An edit of the object at place `i`, and its report. */
    method EditAt(config: Config, ghost i: nat, details: Details)
      requires Objects() && i < |configs| && configs[i] == config
      modifies this, config`details
      ensures World() == Reported(old(World()), i, details) && Published()
      ensures old(DistinctIds(Entries(configs))) ==> configs == old(configs)
    {
      ghost var es := Entries(configs);
      assert es[i] == config.State();
      EditedHasId(es, i, details);
      if DistinctIds(es) { FindEdited(es, i, details); }
      hide ConfigStore.Find, HasId, DistinctIds, FirstSelected;
      EditInPlace(config, i, details);
      UpdateConfig(config);
    }

    /** What the editor does: changes the shared object in place, and then reports it. With distinct identifiers that
        is an edit of its entry. */
    method EditConfig(config: Config, details: Details)
      requires Objects() && config in configs
      modifies this, config`details
      ensures forall i :: 0 <= i < |old(configs)| && old(configs)[i] == config ==>
        World() == Reported(old(World()), i, details)
      ensures Published()
      ensures old(DistinctIds(Entries(configs))) ==>
        configs == old(configs) && World() == Do(old(World()), Edit(config.id, details))
    {
      ghost var w := World();
      ghost var i :| 0 <= i < |configs| && configs[i] == config;
      assert w.configs[i] == config.State();
      if DistinctIds(w.configs) { EditIsUpdate(w, i, details); }
      assert forall j :: 0 <= j < |configs| && configs[j] == config ==> j == i;
      hide ConfigStore.Find, ConfigStore.Update, Do, HasId, DistinctIds, FirstSelected, Entries, Distinct;
      EditAt(config, i, details);
    }
  }

  /** The store after the entry at `i` has been edited in place and reported. */
  ghost function Reported(s: Store, i: nat, details: Details): Store
    requires i < |s.configs|
  {
    var e := s.configs[i].(details := details);
    ConfigStore.Update(s.(configs := s.configs[i := e]), e)
  }

  lemma EditedHasId(configs: seq<Entry>, i: nat, details: Details)
    requires i < |configs|
    ensures HasId(configs[i := configs[i].(details := details)], configs[i].id)
  {
    assert configs[i := configs[i].(details := details)][i].id == configs[i].id;
  }

  /** After an edit the entry is still found at its place. */
  lemma FindEdited(configs: seq<Entry>, i: nat, details: Details)
    requires DistinctIds(configs) && i < |configs|
    ensures var e := configs[i].(details := details);
            ConfigStore.Find(configs[i := e], e.id) == Some(i) && HasId(configs[i := e], e.id)
  {
    var t := configs[i := configs[i].(details := details)];
    assert forall j :: 0 <= j < |t| ==> t[j].id == configs[j].id;
    FindUnique(t, i);
  }
}
