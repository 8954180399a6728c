/** Layout constraints as objects: building, activating, updating in place and removing them. */
module SnapMaker {
  import opened Common
  import opened SnapAttributes
  import opened SnapCompiler
  import opened SnapMeaning
  import opened SnapUpdate

  class LayoutConstraint {
    const firstItem: ItemId
    const firstAttribute: Attribute
    const relation: Relation
    const secondItem: Option<ItemId>
    const secondAttribute: Option<Attribute>
    const multiplier: real
    var constant: real
    var priority: real
    var isActive: bool

    constructor (e: Equation)
      ensures State() == e && !isActive
    {
      firstItem, firstAttribute, relation := e.key.firstItem, e.key.firstAttribute, e.key.relation;
      secondItem, secondAttribute, multiplier := e.key.secondItem, e.key.secondAttribute, e.key.multiplier;
      constant, priority, isActive := e.constant, e.key.priority, false;
    }

    function State(): Equation
      reads this
    {
      Equation(Key(firstItem, firstAttribute, relation, secondItem, secondAttribute, multiplier, priority), constant)
    }

    /** `secondAttribute`, unless it is not an attribute. */
    function ConstantAttribute(): (a: Attribute)
      reads this
      ensures a == SnapCompiler.ConstantAttribute(State().key)
    {
      if secondAttribute.None? then firstAttribute else secondAttribute.value
    }
  }

  ghost predicate Distinct<T>(s: seq<T>) {
    forall i, j :: 0 <= i < j < |s| ==> s[i] != s[j]
  }

  lemma DistinctConcat<T>(s: seq<T>, t: seq<T>)
    requires Distinct(s) && Distinct(t) && forall x :: x in t ==> x !in s
    ensures Distinct(s + t)
  {
    forall i, j | 0 <= i < j < |s + t| ensures (s + t)[i] != (s + t)[j] {
      assert j >= |s| ==> (s + t)[j] in t;
      assert i < |s| ==> (s + t)[i] in s;
    }
  }

  function Equations(ls: seq<LayoutConstraint>): (es: seq<Equation>)
    reads ls
    ensures |es| == |ls| && forall i :: 0 <= i < |ls| ==> es[i] == ls[i].State()
  {
    seq(|ls|, i requires 0 <= i < |ls| reads ls => ls[i].State())
  }

  lemma EquationsConcat(s: seq<LayoutConstraint>, t: seq<LayoutConstraint>)
    ensures Equations(s + t) == Equations(s) + Equations(t)
  {
  }

  /** The body of `init`'s loop. */
  method NewLayoutConstraint(d: Description, a: Attribute, rightToLeft: bool) returns (l: LayoutConstraint)
    requires a in LayoutAttributes(d.from)
    ensures fresh(l) && !l.isActive && EquationFor(d, rightToLeft, a) == Some(l.State())
  {
    SecondAttributeTotal(d.from, d.to, d.target.Some?, a);
    var second := SecondAttribute(d.from, d.to, d.target.Some?, a);
    var item := SecondItem(d, second.value);
    var key := Key(d.item, a, d.relation, item, if item.Some? then second else None, d.multiplier, d.priority);
    l := new LayoutConstraint(Equation(key, ConstantFor(d.constant, second.value, rightToLeft)));
  }

  lemma CompileNext(d: Description, rightToLeft: bool, attributes: seq<Attribute>, n: nat)
    requires n < |attributes|
    ensures var before := CompileList(d, rightToLeft, attributes[..n]);
            var last := EquationFor(d, rightToLeft, attributes[n]);
            CompileList(d, rightToLeft, attributes[..n + 1])
            == if before.None? || last.None? then None else Some(before.value + [last.value])
  {
    assert attributes[..n + 1][..n] == attributes[..n];
  }

  class Constraint {
    const description: Description
    const layoutConstraints: seq<LayoutConstraint>
    /** The equations that the constraint was built with. */
    ghost const compiled: seq<Equation>
    var constant: Constant
    var priority: real

    /** One layout constraint for each attribute; none of the traps is reached. */
    constructor (d: Description, rightToLeft: bool)
      ensures description == d && constant == d.constant && priority == d.priority
      ensures Distinct(layoutConstraints)
      ensures forall i :: 0 <= i < |layoutConstraints| ==> fresh(layoutConstraints[i]) && !layoutConstraints[i].isActive
      ensures Equations(layoutConstraints) == compiled && Compile(d, rightToLeft) == Some(compiled)
      ensures forall layout, p ::
        HoldAt(compiled, p, layout, rightToLeft)
        <==> (d.priority == p ==> forall a :: a in LayoutAttributes(d.from) ==> DemandsAt(d, layout, rightToLeft, a))
    {
      var attributes := LayoutAttributes(d.from);
      var ls: seq<LayoutConstraint> := [];
      assert CompileList(d, rightToLeft, attributes[..0]) == Some([]);
      hide CompileList, LayoutAttributes;
      var n := 0;
      while n < |attributes|
        invariant 0 <= n <= |attributes|
        invariant Distinct(ls) && forall i :: 0 <= i < |ls| ==> fresh(ls[i]) && !ls[i].isActive
        invariant CompileList(d, rightToLeft, attributes[..n]) == Some(Equations(ls))
      {
        var l := NewLayoutConstraint(d, attributes[n], rightToLeft);
        CompileNext(d, rightToLeft, attributes, n);
        ghost var before := Equations(ls);
        ls := ls + [l];
        assert Equations(ls) == before + [l.State()];
        n := n + 1;
      }
      assert attributes[..n] == attributes;
      description, constant, priority := d, d.constant, d.priority;
      layoutConstraints, compiled := ls, Equations(ls);
      forall layout, p
        ensures HoldAt(Equations(ls), p, layout, rightToLeft)
                <==> (d.priority == p ==> forall a :: a in attributes ==> DemandsAt(d, layout, rightToLeft, a))
      {
        CompiledAt(d, p, layout, rightToLeft);
      }
    }

    /** Recomputes every constant, and every priority that may still change. */
    method UpdateConstantAndPriorityIfNeeded(rightToLeft: bool)
      requires Distinct(layoutConstraints)
      modifies layoutConstraints
      ensures forall i :: 0 <= i < |layoutConstraints| ==>
        && layoutConstraints[i].isActive == old(layoutConstraints[i].isActive)
        && layoutConstraints[i].State() == Recomputed(old(layoutConstraints[i].State()), constant, priority, rightToLeft)
    {
      var n := 0;
      while n < |layoutConstraints|
        invariant 0 <= n <= |layoutConstraints|
        invariant forall i :: n <= i < |layoutConstraints| ==>
          layoutConstraints[i].State() == old(layoutConstraints[i].State())
        invariant forall i :: 0 <= i < |layoutConstraints| ==>
          layoutConstraints[i].isActive == old(layoutConstraints[i].isActive)
        invariant forall i :: 0 <= i < n ==>
          layoutConstraints[i].State() == Recomputed(old(layoutConstraints[i].State()), constant, priority, rightToLeft)
      {
        var l := layoutConstraints[n];
        l.constant := ConstantFor(constant, l.ConstantAttribute(), rightToLeft);
        if l.priority < REQUIRED && priority != REQUIRED {
          l.priority := priority;
        }
        n := n + 1;
      }
    }

    /** `update(offset:)` and `update(inset:)`. */
    method UpdateConstant(target: Constant, rightToLeft: bool)
      requires Distinct(layoutConstraints)
      modifies `constant, layoutConstraints
      ensures constant == target
      ensures forall i :: 0 <= i < |layoutConstraints| ==>
        && layoutConstraints[i].isActive == old(layoutConstraints[i].isActive)
        && layoutConstraints[i].State() == Recomputed(old(layoutConstraints[i].State()), target, priority, rightToLeft)
    {
      constant := target;
      UpdateConstantAndPriorityIfNeeded(rightToLeft);
    }

    method UpdatePriority(target: real, rightToLeft: bool)
      requires Distinct(layoutConstraints)
      modifies `priority, layoutConstraints
      ensures priority == target
      ensures forall i :: 0 <= i < |layoutConstraints| ==>
        && layoutConstraints[i].isActive == old(layoutConstraints[i].isActive)
        && layoutConstraints[i].State() == Recomputed(old(layoutConstraints[i].State()), constant, target, rightToLeft)
    {
      priority := target;
      UpdateConstantAndPriorityIfNeeded(rightToLeft);
    }

    /** Each constant that the constraint was built with is the one that an update would compute. */
    ghost predicate Updatable(rightToLeft: bool)
      reads this
    {
      && |compiled| == |layoutConstraints|
      && forall i :: 0 <= i < |compiled| ==>
           compiled[i].constant == ConstantFor(constant, SnapCompiler.ConstantAttribute(compiled[i].key), rightToLeft)
    }

    /** `activateIfNeeded`, not updating: switches the equations on and joins the item's set. */
    method Activate(item: LayoutItem, ghost others: seq<LayoutConstraint>)
      requires item.Valid() && Distinct(layoutConstraints)
      requires this in item.constraintsSet || forall l :: l in layoutConstraints ==> l !in item.layouts
      modifies item`constraintsSet, item`layouts, layoutConstraints
      ensures item.Valid() && Equations(others) == old(Equations(others))
      ensures if this in old(item.constraintsSet)
              then item.constraintsSet == old(item.constraintsSet) && item.layouts == old(item.layouts)
                   && item.Active() == old(item.Active())
              else item.constraintsSet == old(item.constraintsSet) + [this]
                   && item.layouts == old(item.layouts) + layoutConstraints
                   && item.Active() == old(item.Active()) + old(Equations(layoutConstraints))
    {
      ghost var before, all := item.Active(), item.layouts + others;
      SetActive(layoutConstraints, true, all);
      assert Equations(all)[..|item.layouts|] == item.Active() && Equations(all)[|item.layouts|..] == Equations(others);
      assert old(Equations(all))[..|item.layouts|] == before;
      item.Add(this);
    }

    /** `activateIfNeeded`, updating: writes each constant into the first existing match, and traps without one. */
    method UpdateExisting(item: LayoutItem, rightToLeft: bool) returns (ok: bool)
      requires item.Valid() && Updatable(rightToLeft) && Equations(layoutConstraints) == compiled
      requires forall i :: 0 <= i < |layoutConstraints| ==> layoutConstraints[i] !in item.layouts
      modifies item.layouts
      ensures item.Valid()
      ensures UpdateAll(old(item.Active()), compiled) == if ok then Some(item.Active()) else None
    {
      var existing := item.AllLayoutConstraints();
      assert compiled[..0] == [] && UpdateAll(Equations(existing), []) == Some(Equations(existing));
      hide UpdateAll, UpdateOne, Flatten;
      var n := 0;
      while n < |layoutConstraints|
        invariant 0 <= n <= |layoutConstraints|
        invariant forall i :: 0 <= i < |existing| ==> existing[i].isActive
        invariant Equations(layoutConstraints) == compiled
        invariant UpdateAll(old(item.Active()), compiled[..n]) == Some(Equations(existing))
      {
        UpdateAllNext(old(item.Active()), compiled, n);
        assert layoutConstraints[n].State() == compiled[n];
        ok := UpdateMatch(existing, compiled[n], layoutConstraints, n, constant, rightToLeft);
        if !ok {
          NoneStays(old(item.Active()), compiled, n + 1);
          return;
        }
        n := n + 1;
      }
      assert compiled[..n] == compiled;
      return true;
    }

    /** `deactivateIfNeeded`: switches the equations off and leaves the item's set. */
    method Deactivate(item: LayoutItem)
      modifies item`constraintsSet, item`layouts, layoutConstraints
      ensures item.constraintsSet == Without(old(item.constraintsSet), this) && item.layouts == Flatten(item.constraintsSet)
      ensures forall l :: l in layoutConstraints ==> !l.isActive
    {
      SetActive(layoutConstraints, false, []);
      item.Remove(this);
    }
  }

  /** `NSLayoutConstraint.activate` and `deactivate`: no equation changes, of these or of others. */
  method SetActive(ls: seq<LayoutConstraint>, active: bool, ghost others: seq<LayoutConstraint>)
    modifies ls
    ensures Equations(ls) == old(Equations(ls)) && Equations(others) == old(Equations(others))
    ensures forall l :: l in ls ==> l.isActive == active
  {
    var n := 0;
    while n < |ls|
      invariant 0 <= n <= |ls|
      invariant forall i :: 0 <= i < |ls| ==> ls[i].State() == old(ls[i].State())
      invariant forall i :: 0 <= i < |others| ==> others[i].State() == old(others[i].State())
      invariant forall i :: 0 <= i < n ==> ls[i].isActive == active
    {
      ls[n].isActive := active;
      n := n + 1;
    }
  }

  /** The first existing layout constraint that is equal under `==` to one with the given key. */
  method FindFirst(existing: seq<LayoutConstraint>, k: Key) returns (j: Option<nat>)
    ensures j == FirstMatch(Equations(existing), k)
  {
    var es := Equations(existing);
    var n := 0;
    while n < |existing|
      invariant 0 <= n <= |existing|
      invariant forall i :: 0 <= i < n ==> es[i].key != k
    {
      if existing[n].State().key == k {
        return Some(n);
      }
      n := n + 1;
    }
    return None;
  }

  method SetConstant(ghost existing: seq<LayoutConstraint>, ghost j: nat, target: LayoutConstraint, value: real)
    requires j < |existing| && Distinct(existing) && target == existing[j]
    modifies target`constant
    ensures Equations(existing) == old(Equations(existing))[j := Equation(target.State().key, value)]
  {
    target.constant := value;
    assert forall i :: 0 <= i < |existing| && i != j ==> existing[i].State() == old(existing[i].State());
  }

  /** Writes the constant for equation `e` of `ls[n]` into the first existing match. */
  method UpdateMatch(existing: seq<LayoutConstraint>, ghost e: Equation, ls: seq<LayoutConstraint>, n: nat,
                     c: Constant, rightToLeft: bool)
    returns (ok: bool)
    requires Distinct(existing) && n < |ls| && ls[n].State() == e
    requires forall i :: 0 <= i < |ls| ==> ls[i] !in existing
    requires e.constant == ConstantFor(c, ConstantAttribute(e.key), rightToLeft)
    modifies existing
    ensures UpdateOne(old(Equations(existing)), e) == if ok then Some(Equations(existing)) else None
    ensures forall i :: 0 <= i < |existing| ==> existing[i].isActive == old(existing[i].isActive)
    ensures Equations(ls) == old(Equations(ls))
  {
    var j := FindFirst(existing, ls[n].State().key);
    if j.None? {
      return false;
    }
    var target := existing[j.value];
    SetConstant(existing, j.value, target, ConstantFor(c, target.ConstantAttribute(), rightToLeft));
    return true;
  }

  lemma {:induction false} NoneStays(s: seq<Equation>, es: seq<Equation>, n: nat)
    requires n <= |es| && UpdateAll(s, es[..n]).None?
    ensures UpdateAll(s, es).None?
    decreases |es| - n
  {
    if n < |es| {
      assert es[..n + 1][..n] == es[..n];
      NoneStays(s, es, n + 1);
    } else {
      assert es[..n] == es;
    }
  }

  // ---------------------------------------------------------------------------------------------
  // The constraints of an item
  // ---------------------------------------------------------------------------------------------

  /** All layout constraints of a list of constraints. */
  function Flatten(cs: seq<Constraint>): seq<LayoutConstraint> {
    if cs == [] then [] else Flatten(cs[..|cs| - 1]) + cs[|cs| - 1].layoutConstraints
  }

  lemma FlattenAppend(cs: seq<Constraint>, c: Constraint)
    ensures Flatten(cs + [c]) == Flatten(cs) + c.layoutConstraints
  {
    assert (cs + [c])[..|cs|] == cs;
  }

  function Without<T(==)>(s: seq<T>, x: T): seq<T> {
    if s == [] then [] else (if s[0] == x then [] else [s[0]]) + Without(s[1..], x)
  }

  lemma {:induction false} WithoutAbsent<T>(s: seq<T>, x: T)
    requires x !in s
    ensures Without(s, x) == s
  {
    if s != [] {
      WithoutAbsent(s[1..], x);
    }
  }

  class LayoutItem {
    const id: ItemId
    const superview: Option<ItemId>
    /** The set, in the order in which it lists its members. */
    var constraintsSet: seq<Constraint>
    ghost var layouts: seq<LayoutConstraint>

    constructor (id: ItemId, superview: Option<ItemId>)
      ensures this.id == id && this.superview == superview && constraintsSet == [] && Valid()
    {
      this.id, this.superview, constraintsSet, layouts := id, superview, [], [];
    }

    /** The set has no duplicates, no layout constraint belongs to two constraints, and all of them are active. */
    ghost predicate Valid()
      reads this, layouts
    {
      && layouts == Flatten(constraintsSet) && Distinct(constraintsSet) && Distinct(layouts)
      && forall l :: l in layouts ==> l.isActive
    }

    /** The equations that the item's constraints contribute to the layout. */
    ghost function Active(): seq<Equation>
      reads this, layouts
    {
      Equations(layouts)
    }

    lemma ListsAll()
      requires Valid()
      ensures layouts == Flatten(constraintsSet) && Distinct(constraintsSet) && Distinct(layouts)
    {
    }

    lemma EmptyIsValid()
      requires constraintsSet == [] && layouts == Flatten([])
      ensures Valid() && Active() == []
    {
    }

    method AllLayoutConstraints() returns (ls: seq<LayoutConstraint>)
      requires Valid()
      ensures ls == layouts
    {
      ls := [];
      var n := 0;
      while n < |constraintsSet|
        invariant 0 <= n <= |constraintsSet|
        invariant ls == Flatten(constraintsSet[..n])
      {
        FlattenAppend(constraintsSet[..n], constraintsSet[n]);
        assert constraintsSet[..n] + [constraintsSet[n]] == constraintsSet[..n + 1];
        ls := ls + constraintsSet[n].layoutConstraints;
        n := n + 1;
      }
      assert constraintsSet[..n] == constraintsSet;
    }

    method Add(c: Constraint)
      requires Valid() && Distinct(c.layoutConstraints)
      requires c in constraintsSet || forall l :: l in c.layoutConstraints ==> l !in layouts && l.isActive
      modifies `constraintsSet, `layouts
      ensures Valid()
      ensures if c in old(constraintsSet)
              then constraintsSet == old(constraintsSet) && layouts == old(layouts) && Active() == old(Active())
              else constraintsSet == old(constraintsSet) + [c] && layouts == old(layouts) + c.layoutConstraints
                   && Active() == old(Active()) + Equations(c.layoutConstraints)
    {
      if c in constraintsSet { return; }
      FlattenAppend(constraintsSet, c);
      DistinctConcat(layouts, c.layoutConstraints);
      DistinctConcat(constraintsSet, [c]);
      EquationsConcat(layouts, c.layoutConstraints);
      constraintsSet := constraintsSet + [c];
      layouts := layouts + c.layoutConstraints;
    }

    method Remove(c: Constraint)
      modifies `constraintsSet, `layouts
      ensures constraintsSet == Without(old(constraintsSet), c) && layouts == Flatten(constraintsSet)
    {
      constraintsSet := Without(constraintsSet, c);
      layouts := Flatten(constraintsSet);
    }
  }

  // ---------------------------------------------------------------------------------------------
  // Descriptions and the maker
  // ---------------------------------------------------------------------------------------------

  /** What a constraint may be related to. */
  datatype Other = OtherItem(target: Option<ItemId>, attributes: Mask) | OtherConstant(value: Constant)

  class ConstraintDescription {
    const item: ItemId
    const superview: Option<ItemId>
    var attributes: Mask
    var relation: Option<Relation>
    var target: Option<ItemId>
    var targetAttributes: Mask
    var multiplier: real
    var constant: Constant
    var priority: real

    constructor (item: LayoutItem, attributes: Mask)
      ensures this.item == item.id && this.superview == item.superview && this.attributes == attributes
      ensures relation.None? && target.None? && Sound()
      ensures multiplier == 1.0 && constant == Number(0.0) && priority == 1000.0
    {
      this.item, this.superview, this.attributes := item.id, item.superview, attributes;
      relation, target, targetAttributes, multiplier, constant, priority := None, None, 0, 1.0, Number(0.0), 1000.0;
    }

    /** Only an item has attributes to be related to. */
    ghost predicate Sound()
      reads this
    {
      target.None? ==> targetAttributes == 0
    }

    /** `relatedTo`: refuses other items' attributes that cannot be paired with its own. */
    method RelatedTo(other: Other, relation: Relation) returns (ok: bool)
      requires Sound() && (other.OtherItem? && other.target.None? ==> other.attributes == 0)
      modifies this
      ensures Sound() && ok == (other.OtherItem? ==> Accepts(attributes, other.attributes))
      ensures !ok ==> unchanged(this)
      ensures attributes == old(attributes) && multiplier == old(multiplier) && priority == old(priority)
      ensures ok ==> this.relation == Some(relation)
                     && if other.OtherItem? then
                          target == other.target && targetAttributes == other.attributes && constant == Number(0.0)
                        else target.None? && constant == other.value
    {
      match other {
        case OtherItem(item, otherAttributes) =>
          if !Accepts(attributes, otherAttributes) { return false; }
          target, targetAttributes, constant := item, otherAttributes, Number(0.0);
        case OtherConstant(value) =>
          target, targetAttributes, constant := None, 0, value;
      }
      this.relation := Some(relation);
      return true;
    }

    /** For each of its attributes, the layout meets the demand of what `RelatedTo` has recorded. */
    ghost predicate Satisfied(layout: ItemId -> Geometry, rightToLeft: bool)
      reads this
    {
      relation.Some? ==>
        forall a :: a in LayoutAttributes(attributes) ==>
          Demands(item, superview, attributes, target, targetAttributes, relation.value, multiplier, constant,
                  layout, rightToLeft, a)
    }

    /** What the constraint is built from, once a relation has been given. */
    function Finished(): Option<Description>
      reads this
    {
      if relation.None? then None
      else Some(Description(item, superview, attributes, target, targetAttributes,
                            relation.value, multiplier, constant, priority))
    }
  }

  function Descriptions(ds: seq<ConstraintDescription>): (fs: seq<Option<Description>>)
    reads ds
    ensures |fs| == |ds| && forall i :: 0 <= i < |ds| ==> fs[i] == ds[i].Finished()
  {
    seq(|ds|, i requires 0 <= i < |ds| reads ds => ds[i].Finished())
  }

  ghost function DescribedBy(d: Option<Description>, rightToLeft: bool): seq<Equation> {
    if d.None? || Compile(d.value, rightToLeft).None? then [] else Compile(d.value, rightToLeft).value
  }

  /** The equations of all finished descriptions, in order. */
  ghost function Described(fs: seq<Option<Description>>, rightToLeft: bool): seq<Equation> {
    if fs == [] then []
    else Described(fs[..|fs| - 1], rightToLeft) + DescribedBy(fs[|fs| - 1], rightToLeft)
  }

  /** The layout satisfies all descriptions of that priority. */
  ghost predicate AllSatisfied(ds: seq<ConstraintDescription>, priority: real, layout: ItemId -> Geometry, rightToLeft: bool)
    reads ds
  {
    forall i :: 0 <= i < |ds| && ds[i].priority == priority ==> ds[i].Satisfied(layout, rightToLeft)
  }

  lemma OneDemands(d: ConstraintDescription, priority: real, layout: ItemId -> Geometry, rightToLeft: bool)
    ensures HoldAt(DescribedBy(d.Finished(), rightToLeft), priority, layout, rightToLeft)
            <==> (d.priority == priority ==> d.Satisfied(layout, rightToLeft))
  {
    if d.relation.Some? {
      var f := d.Finished().value;
      CompiledAt(f, priority, layout, rightToLeft);
      hide HoldAt, Compile, LayoutAttributes, Demands;
      assert forall a :: DemandsAt(f, layout, rightToLeft, a) <==>
        Demands(d.item, d.superview, d.attributes, d.target, d.targetAttributes, d.relation.value, d.multiplier,
                d.constant, layout, rightToLeft, a);
    }
  }

  /** What the descriptions compile to demands what they record, each at its own priority, and nothing else. */
  lemma {:induction false} DescribedDemands(ds: seq<ConstraintDescription>, priority: real,
                                            layout: ItemId -> Geometry, rightToLeft: bool)
    ensures HoldAt(Described(Descriptions(ds), rightToLeft), priority, layout, rightToLeft)
            <==> AllSatisfied(ds, priority, layout, rightToLeft)
  {
    if ds != [] {
      var n := |ds| - 1;
      DescribedLast(ds, rightToLeft);
      AllSatisfiedLast(ds, priority, layout, rightToLeft);
      hide *;
      DescribedDemands(ds[..n], priority, layout, rightToLeft);
      OneDemands(ds[n], priority, layout, rightToLeft);
      HoldAtConcat(Described(Descriptions(ds[..n]), rightToLeft), DescribedBy(ds[n].Finished(), rightToLeft),
                   priority, layout, rightToLeft);
    }
  }

  lemma DescribedLast(ds: seq<ConstraintDescription>, rightToLeft: bool)
    requires ds != []
    ensures Described(Descriptions(ds), rightToLeft)
            == Described(Descriptions(ds[..|ds| - 1]), rightToLeft) + DescribedBy(ds[|ds| - 1].Finished(), rightToLeft)
  {
    hide DescribedBy;
    assert Descriptions(ds)[..|ds| - 1] == Descriptions(ds[..|ds| - 1]);
  }

  lemma AllSatisfiedLast(ds: seq<ConstraintDescription>, priority: real, layout: ItemId -> Geometry, rightToLeft: bool)
    requires ds != []
    ensures AllSatisfied(ds, priority, layout, rightToLeft)
            <==> AllSatisfied(ds[..|ds| - 1], priority, layout, rightToLeft)
                 && (ds[|ds| - 1].priority == priority ==> ds[|ds| - 1].Satisfied(layout, rightToLeft))
  {
    hide LayoutAttributes, Demands;
  }

  lemma DescribedDemandsAlways(ds: seq<ConstraintDescription>, rightToLeft: bool)
    ensures forall layout, p ::
      HoldAt(Described(Descriptions(ds), rightToLeft), p, layout, rightToLeft) <==> AllSatisfied(ds, p, layout, rightToLeft)
  {
    forall layout, p
      ensures HoldAt(Described(Descriptions(ds), rightToLeft), p, layout, rightToLeft)
              <==> AllSatisfied(ds, p, layout, rightToLeft)
    {
      DescribedDemands(ds, p, layout, rightToLeft);
    }
  }

  /** The constants that a description compiles to are those that an update would compute. */
  lemma BuiltIsUpdatable(d: Description, es: seq<Equation>, rightToLeft: bool)
    requires (d.target.None? ==> d.to == 0) && Compile(d, rightToLeft) == Some(es)
    ensures forall i :: 0 <= i < |es| ==>
      es[i].constant == ConstantFor(d.constant, SnapCompiler.ConstantAttribute(es[i].key), rightToLeft)
  {
    CompileTotal(d, rightToLeft);
    forall i | 0 <= i < |es|
      ensures es[i].constant == ConstantFor(d.constant, SnapCompiler.ConstantAttribute(es[i].key), rightToLeft)
    {
      RecomputedConstant(d, rightToLeft, LayoutAttributes(d.from)[i], d.constant);
    }
  }

  /** The equations that constraints were built with. */
  ghost function CompiledOf(cs: seq<Constraint>): (es: seq<Equation>) {
    if cs == [] then [] else CompiledOf(cs[..|cs| - 1]) + cs[|cs| - 1].compiled
  }

  /** Constraints as `prepareConstraints` leaves them: nothing is shared, and the equations are as compiled. */
  ghost predicate Prepared(cs: seq<Constraint>, ls: seq<LayoutConstraint>, rightToLeft: bool)
    reads cs, ls
  {
    && ls == Flatten(cs) && Distinct(cs) && Distinct(ls)
    && (forall i :: 0 <= i < |cs| ==> cs[i].Updatable(rightToLeft))
    && Equations(ls) == CompiledOf(cs)
  }

  lemma PreparedNext(cs: seq<Constraint>, ls: seq<LayoutConstraint>, c: Constraint, rightToLeft: bool)
    requires Prepared(cs, ls, rightToLeft) && c !in cs && c.Updatable(rightToLeft)
    requires Distinct(c.layoutConstraints) && forall l :: l in c.layoutConstraints ==> l !in ls
    requires Equations(c.layoutConstraints) == c.compiled
    ensures Prepared(cs + [c], ls + c.layoutConstraints, rightToLeft)
    ensures CompiledOf(cs + [c]) == CompiledOf(cs) + c.compiled
  {
    assert (cs + [c])[..|cs|] == cs;
    FlattenAppend(cs, c);
    DistinctConcat(ls, c.layoutConstraints);
    DistinctConcat(cs, [c]);
    EquationsConcat(ls, c.layoutConstraints);
  }

  /** `made` holds all these objects. */
  ghost predicate Within(cs: seq<Constraint>, ls: seq<LayoutConstraint>, made: set<object>) {
    (forall i :: 0 <= i < |cs| ==> cs[i] in made) && (forall j :: 0 <= j < |ls| ==> ls[j] in made)
  }

  /** The lazy `constraint` of a description that has been given a relation. */
  method Build(d: Description, rightToLeft: bool) returns (c: Constraint, ghost parts: set<object>)
    requires d.target.None? ==> d.to == 0
    ensures fresh(parts) && c in parts && forall i :: 0 <= i < |c.layoutConstraints| ==> c.layoutConstraints[i] in parts
    ensures Distinct(c.layoutConstraints) && c.Updatable(rightToLeft)
    ensures Equations(c.layoutConstraints) == c.compiled == DescribedBy(Some(d), rightToLeft)
  {
    c := new Constraint(d, rightToLeft);
    BuiltIsUpdatable(d, c.compiled, rightToLeft);
    assert DescribedBy(Some(d), rightToLeft) == c.compiled;
    hide *;
    parts := {c} + set i | 0 <= i < |c.layoutConstraints| :: c.layoutConstraints[i];
  }

  method BuildNext(cs: seq<Constraint>, ghost ls: seq<LayoutConstraint>, d: Description, rightToLeft: bool)
    returns (c: Constraint, ghost parts: set<object>)
    requires d.target.None? ==> d.to == 0
    requires Prepared(cs, ls, rightToLeft)
    ensures fresh(parts) && Within([c], c.layoutConstraints, parts)
    ensures Prepared(cs + [c], ls + c.layoutConstraints, rightToLeft)
    ensures CompiledOf(cs + [c]) == CompiledOf(cs) + DescribedBy(Some(d), rightToLeft)
  {
    hide Prepared, CompiledOf, Equations, Distinct, DescribedBy;
    c, parts := Build(d, rightToLeft);
    PreparedNext(cs, ls, c, rightToLeft);
  }

  lemma WithinBoth(cs: seq<Constraint>, ls: seq<LayoutConstraint>, made: set<object>,
                   cs': seq<Constraint>, ls': seq<LayoutConstraint>, made': set<object>)
    requires Within(cs, ls, made) && Within(cs', ls', made')
    ensures Within(cs + cs', ls + ls', made + made')
  {
  }

  /** One description more; an unfinished one is skipped. */
  method PrepareNext(cs: seq<Constraint>, ghost ls: seq<LayoutConstraint>, ghost made: set<object>,
                     d: Option<Description>, rightToLeft: bool)
    returns (cs': seq<Constraint>, ghost ls': seq<LayoutConstraint>, ghost made': set<object>)
    requires d.Some? && d.value.target.None? ==> d.value.to == 0
    requires Prepared(cs, ls, rightToLeft) && Within(cs, ls, made)
    ensures Prepared(cs', ls', rightToLeft) && Within(cs', ls', made') && made <= made' && fresh(made' - made)
    ensures CompiledOf(cs') == CompiledOf(cs) + DescribedBy(d, rightToLeft)
  {
    if d.None? {
      return cs, ls, made;
    }
    ghost var parts: set<object>;
    var c;
    c, parts := BuildNext(cs, ls, d.value, rightToLeft);
    WithinBoth(cs, ls, made, [c], c.layoutConstraints, parts);
    return cs + [c], ls + c.layoutConstraints, made + parts;
  }

  lemma DescribedNext(fs: seq<Option<Description>>, n: nat, rightToLeft: bool)
    requires n < |fs|
    ensures Described(fs[..n + 1], rightToLeft) == Described(fs[..n], rightToLeft) + DescribedBy(fs[n], rightToLeft)
  {
    assert fs[..n + 1][..n] == fs[..n];
  }

  lemma NonePrepared(rightToLeft: bool)
    ensures Prepared([], [], rightToLeft) && Within([], [], {}) && CompiledOf([]) == Described([], rightToLeft)
  {
  }

  lemma FinishedIsSound(d: ConstraintDescription)
    requires d.Sound()
    ensures d.Finished().Some? && d.Finished().value.target.None? ==> d.Finished().value.to == 0
  {
  }

  /** `prepareConstraints`, given the descriptions that the closure has made. */
  method PrepareConstraints(ds: seq<ConstraintDescription>, rightToLeft: bool)
    returns (cs: seq<Constraint>, ghost ls: seq<LayoutConstraint>, ghost made: set<object>)
    requires forall d :: d in ds ==> d.Sound()
    ensures Within(cs, ls, made) && fresh(made)
    ensures Prepared(cs, ls, rightToLeft) && CompiledOf(cs) == Described(Descriptions(ds), rightToLeft)
    ensures forall layout, p ::
      HoldAt(CompiledOf(cs), p, layout, rightToLeft) <==> AllSatisfied(ds, p, layout, rightToLeft)
  {
    hide *;
    ghost var fs := Descriptions(ds);
    assert forall i :: 0 <= i < |ds| ==> ds[i].Sound();
    cs, ls, made := [], [], {};
    NonePrepared(rightToLeft);
    assert fs[..0] == [];
    var n := 0;
    while n < |ds|
      invariant 0 <= n <= |ds|
      invariant Descriptions(ds) == fs
      invariant Within(cs, ls, made) && fresh(made)
      invariant Prepared(cs, ls, rightToLeft) && CompiledOf(cs) == Described(fs[..n], rightToLeft)
    {
      DescribedNext(fs, n, rightToLeft);
      FinishedIsSound(ds[n]);
      cs, ls, made := PrepareNext(cs, ls, made, ds[n].Finished(), rightToLeft);
      n := n + 1;
    }
    assert fs[..n] == fs;
    DescribedDemandsAlways(ds, rightToLeft);
  }

  lemma {:induction false} FlattenPrefix(cs: seq<Constraint>, n: nat)
    requires n <= |cs|
    ensures Flatten(cs[..n]) <= Flatten(cs)
    decreases |cs| - n
  {
    if n < |cs| {
      FlattenPrefix(cs, n + 1);
      assert cs[..n + 1][..n] == cs[..n];
    } else {
      assert cs[..n] == cs;
    }
  }

  /** What the next constraint brings is in no earlier one. */
  lemma NextIsNew(cs: seq<Constraint>, n: nat)
    requires n < |cs| && Distinct(Flatten(cs))
    ensures Flatten(cs[..n + 1]) == Flatten(cs[..n]) + cs[n].layoutConstraints
    ensures Distinct(cs[n].layoutConstraints)
    ensures forall l :: l in cs[n].layoutConstraints ==> l !in Flatten(cs[..n])
    ensures var k := |Flatten(cs[..n])|;
            && k + |cs[n].layoutConstraints| <= |Flatten(cs)|
            && cs[n].layoutConstraints == Flatten(cs)[k..k + |cs[n].layoutConstraints|]
  {
    FlattenPrefix(cs, n + 1);
    assert cs[..n + 1][..n] == cs[..n];
    PartsDiffer(Flatten(cs[..n]), cs[n].layoutConstraints, Flatten(cs));
  }

  lemma PartsDiffer<T>(s: seq<T>, t: seq<T>, all: seq<T>)
    requires s + t <= all && Distinct(all)
    ensures Distinct(t) && forall x :: x in t ==> x !in s
    ensures t == all[|s|..|s| + |t|]
  {
    assert forall i :: 0 <= i < |t| ==> t[i] == all[|s| + i];
    forall i, j | 0 <= i < |s| && 0 <= j < |t| ensures s[i] != t[j] {
      assert all[i] == s[i] && all[|s| + j] == t[j];
    }
  }

  lemma PrefixNext<T>(s: seq<T>, n: nat)
    requires n < |s|
    ensures s[..n] + [s[n]] == s[..n + 1]
  {
  }

  method ActivateAll(item: LayoutItem, cs: seq<Constraint>, ghost ls: seq<LayoutConstraint>)
    requires item.Valid() && ls == Flatten(cs) && Distinct(cs) && Distinct(ls)
    requires forall i :: 0 <= i < |cs| ==> cs[i] !in item.constraintsSet
    requires forall j :: 0 <= j < |ls| ==> ls[j] !in item.layouts
    modifies item`constraintsSet, item`layouts, ls
    ensures item.Valid() && item.layouts == old(item.layouts) + ls
    ensures item.constraintsSet == old(item.constraintsSet) + cs
    ensures item.Active() == old(item.Active()) + old(Equations(ls))
  {
    ghost var set0, layouts0 := item.constraintsSet, item.layouts;
    ghost var equations := Equations(layouts0 + ls);
    EquationsConcat(layouts0, ls);
    var n := 0;
    while n < |cs|
      invariant 0 <= n <= |cs|
      invariant item.Valid() && item.constraintsSet == set0 + cs[..n]
      invariant item.layouts == layouts0 + Flatten(cs[..n])
      invariant Equations(layouts0 + ls) == equations
    {
      NextIsNew(cs, n);
      PrefixNext(cs, n);
      Assoc(layouts0, Flatten(cs[..n]), cs[n].layoutConstraints);
      Assoc(set0, cs[..n], [cs[n]]);
      cs[n].Activate(item, layouts0 + ls);
      n := n + 1;
    }
    assert cs[..n] == cs;
    EquationsConcat(layouts0, ls);
  }

  /** `makeConstraints`: what the descriptions say becomes active beside what is active already. */
  method MakeConstraints(item: LayoutItem, ds: seq<ConstraintDescription>, rightToLeft: bool)
    requires item.Valid() && forall d :: d in ds ==> d.Sound()
    modifies item
    ensures item.Valid() && old(item.constraintsSet) <= item.constraintsSet
    ensures item.Active() == old(item.Active()) + Described(Descriptions(ds), rightToLeft)
    ensures forall i :: |old(item.layouts)| <= i < |item.layouts| ==> fresh(item.layouts[i])
    ensures forall layout, p ::
      HoldAt(item.Active(), p, layout, rightToLeft)
      <==> old(HoldAt(item.Active(), p, layout, rightToLeft)) && AllSatisfied(ds, p, layout, rightToLeft)
  {
    ghost var before := item.Active();
    hide CompiledOf, Described, Descriptions, Equations, Flatten, Distinct, HoldAt, AllSatisfied;
    var cs, ls, made := PrepareConstraints(ds, rightToLeft);
    ghost var built := CompiledOf(cs);
    ActivateAll(item, cs, ls);
    HoldAtConcatAlways(before, built, rightToLeft);
  }

  lemma HoldAtConcatAlways(s: seq<Equation>, t: seq<Equation>, rightToLeft: bool)
    ensures forall layout, p ::
      HoldAt(s + t, p, layout, rightToLeft)
      <==> HoldAt(s, p, layout, rightToLeft) && HoldAt(t, p, layout, rightToLeft)
  {
    forall layout, p
      ensures HoldAt(s + t, p, layout, rightToLeft)
              <==> HoldAt(s, p, layout, rightToLeft) && HoldAt(t, p, layout, rightToLeft)
    {
      HoldAtConcat(s, t, p, layout, rightToLeft);
    }
  }

  lemma WithoutFirst<T>(s: seq<T>, n: nat)
    requires n < |s| && Distinct(s)
    ensures Without(s[n..], s[n]) == s[n + 1..]
  {
    assert s[n..][1..] == s[n + 1..];
    WithoutAbsent(s[n + 1..], s[n]);
  }

  /** Deactivates constraint `n`; the layout constraints of the earlier ones, the first `k` of `all`, stay inactive. */
  method DeactivateNext(item: LayoutItem, cs: seq<Constraint>, n: nat, ghost all: seq<LayoutConstraint>, ghost k: nat)
    requires n < |cs| && Distinct(cs) && item.constraintsSet == cs[n..]
    requires k + |cs[n].layoutConstraints| <= |all|
    requires cs[n].layoutConstraints == all[k..k + |cs[n].layoutConstraints|]
    requires forall i :: 0 <= i < k ==> !all[i].isActive
    modifies item`constraintsSet, item`layouts, cs[n].layoutConstraints
    ensures item.constraintsSet == cs[n + 1..] && item.layouts == Flatten(cs[n + 1..])
    ensures forall i :: 0 <= i < k + |cs[n].layoutConstraints| ==> !all[i].isActive
  {
    WithoutFirst(cs, n);
    hide *;
    ghost var ls := cs[n].layoutConstraints;
    assert forall i :: k <= i < k + |ls| ==> all[i] == ls[i - k];
    cs[n].Deactivate(item);
  }

  /** `removeConstraints`: nothing of what the item had stays active. */
  method RemoveConstraints(item: LayoutItem)
    requires item.Valid()
    modifies item`constraintsSet, item`layouts, item.layouts
    ensures item.Valid() && item.constraintsSet == [] && item.Active() == []
    ensures forall i :: 0 <= i < |old(item.layouts)| ==> !old(item.layouts)[i].isActive
  {
    var cs := item.constraintsSet;
    ghost var all := item.layouts;
    item.ListsAll();
    assert cs[0..] == cs && cs[..0] == [] && Flatten([]) == [];
    hide *;
    ghost var k: nat := 0;
    var n := 0;
    while n < |cs|
      invariant 0 <= n <= |cs|
      invariant item.constraintsSet == cs[n..] && item.layouts == Flatten(cs[n..])
      invariant k == |Flatten(cs[..n])| <= |all|
      invariant forall i :: 0 <= i < k ==> !all[i].isActive
    {
      NextIsNew(cs, n);
      DeactivateNext(item, cs, n, all, k);
      k := k + |cs[n].layoutConstraints|;
      n := n + 1;
    }
    assert cs[..n] == cs && cs[n..] == [];
    item.EmptyIsValid();
  }

  /** `remakeConstraints`: afterwards exactly what the descriptions say is active. */
  method RemakeConstraints(item: LayoutItem, ds: seq<ConstraintDescription>, rightToLeft: bool)
    requires item.Valid() && forall d :: d in ds ==> d.Sound()
    modifies item, item.layouts
    ensures item.Valid() && item.Active() == Described(Descriptions(ds), rightToLeft)
    ensures forall i :: 0 <= i < |old(item.layouts)| ==> !old(item.layouts)[i].isActive
    ensures forall layout, p ::
      HoldAt(item.Active(), p, layout, rightToLeft) <==> AllSatisfied(ds, p, layout, rightToLeft)
  {
    RemoveConstraints(item);
    MakeConstraints(item, ds, rightToLeft);
  }

  lemma {:induction false} UpdateAllConcat(s: seq<Equation>, t: seq<Equation>, u: seq<Equation>)
    ensures UpdateAll(s, t + u)
            == if UpdateAll(s, t).None? then None else UpdateAll(UpdateAll(s, t).value, u)
  {
    if u == [] {
      assert t + u == t;
    } else {
      UpdateAllConcat(s, t, u[..|u| - 1]);
      assert (t + u)[..|t + u| - 1] == t + u[..|u| - 1];
    }
  }

  /** A constraint's equations are those that its description compiles to, at its place among the others. */
  lemma {:induction false} CompiledLength(cs: seq<Constraint>)
    requires forall i :: 0 <= i < |cs| ==> |cs[i].compiled| == |cs[i].layoutConstraints|
    ensures |CompiledOf(cs)| == |Flatten(cs)|
  {
    if cs != [] {
      CompiledLength(cs[..|cs| - 1]);
    }
  }

  lemma {:induction false} CompiledPrefix(cs: seq<Constraint>, n: nat)
    requires n <= |cs|
    ensures CompiledOf(cs[..n]) <= CompiledOf(cs)
    decreases |cs| - n
  {
    if n < |cs| {
      CompiledPrefix(cs, n + 1);
      assert cs[..n + 1][..n] == cs[..n];
    } else {
      assert cs[..n] == cs;
    }
  }

  lemma EquationsSlice(ls: seq<LayoutConstraint>, k: nat, m: nat)
    requires k + m <= |ls|
    ensures Equations(ls[k..k + m]) == Equations(ls)[k..k + m]
  {
  }

  /** The next constraint's equations are still those that it was built with, so an update can use them. */
  lemma NextIsAsCompiled(cs: seq<Constraint>, n: nat, ls: seq<LayoutConstraint>, rightToLeft: bool)
    requires n < |cs| && Prepared(cs, ls, rightToLeft)
    ensures Equations(cs[n].layoutConstraints) == cs[n].compiled
    ensures forall i :: 0 <= i < |cs[n].layoutConstraints| ==> cs[n].layoutConstraints[i] in ls
  {
    var k, m := |Flatten(cs[..n])|, |cs[n].layoutConstraints|;
    NextIsNew(cs, n);
    EquationsSlice(ls, k, m);
    CompiledLength(cs[..n]);
    CompiledPrefix(cs, n + 1);
    assert cs[..n + 1][..n] == cs[..n];
    assert CompiledOf(cs)[k..k + m] == cs[n].compiled;
  }

  /** Updating with one constraint more, after `middle` was reached with the first `n`. */
  lemma UpdateStep(before: seq<Equation>, cs: seq<Constraint>, n: nat, middle: seq<Equation>, r: Option<seq<Equation>>)
    requires n < |cs| && UpdateAll(before, CompiledOf(cs[..n])) == Some(middle)
    requires UpdateAll(middle, cs[n].compiled) == r
    ensures UpdateAll(before, CompiledOf(cs[..n + 1])) == r
    ensures r.None? ==> UpdateAll(before, CompiledOf(cs)).None?
  {
    assert cs[..n + 1][..n] == cs[..n];
    UpdateAllConcat(before, CompiledOf(cs[..n]), cs[n].compiled);
    if r.None? {
      CompiledPrefix(cs, n + 1);
      var done := CompiledOf(cs[..n + 1]);
      assert CompiledOf(cs) == done + CompiledOf(cs)[|done|..];
      UpdateAllConcat(before, done, CompiledOf(cs)[|done|..]);
    }
  }

  /** `activateIfNeeded(updatingExisting: true)` of the next constraint. */
  method UpdateWithNext(item: LayoutItem, cs: seq<Constraint>, n: nat, ghost ls: seq<LayoutConstraint>, rightToLeft: bool)
    returns (ok: bool)
    requires item.Valid() && n < |cs| && Prepared(cs, ls, rightToLeft)
    requires forall j :: 0 <= j < |ls| ==> ls[j] !in item.layouts
    modifies item.layouts
    ensures item.Valid() && Equations(ls) == old(Equations(ls))
    ensures UpdateAll(old(item.Active()), cs[n].compiled) == if ok then Some(item.Active()) else None
  {
    NextIsAsCompiled(cs, n, ls, rightToLeft);
    ok := cs[n].UpdateExisting(item, rightToLeft);
  }

  /** Updates with each constraint in turn, until one of them traps. */
  method UpdateWithAll(item: LayoutItem, cs: seq<Constraint>, ghost ls: seq<LayoutConstraint>, rightToLeft: bool)
    returns (ok: bool)
    requires item.Valid() && Prepared(cs, ls, rightToLeft)
    requires forall j :: 0 <= j < |ls| ==> ls[j] !in item.layouts
    modifies item.layouts
    ensures item.Valid()
    ensures UpdateAll(old(item.Active()), CompiledOf(cs)) == if ok then Some(item.Active()) else None
  {
    ghost var es, before := Equations(ls), item.Active();
    var n := 0;
    while n < |cs|
      invariant 0 <= n <= |cs|
      invariant item.Valid() && Equations(ls) == es
      invariant UpdateAll(before, CompiledOf(cs[..n])) == Some(item.Active())
    {
      ghost var middle := item.Active();
      ok := UpdateWithNext(item, cs, n, ls, rightToLeft);
      UpdateStep(before, cs, n, middle, if ok then Some(item.Active()) else None);
      if !ok { return; }
      n := n + 1;
    }
    assert cs[..n] == cs;
    ok := true;
  }

  /** `updateConstraints`: writes the new constants into the item's own constraints, whose set stays as it is; an item
      without constraints gets new ones instead. */
  method UpdateConstraints(item: LayoutItem, ds: seq<ConstraintDescription>, rightToLeft: bool) returns (ok: bool)
    requires item.Valid() && forall d :: d in ds ==> d.Sound()
    modifies item, item.layouts
    ensures item.Valid()
    ensures old(item.constraintsSet) == [] ==> ok && item.Active() == Described(Descriptions(ds), rightToLeft)
    ensures old(item.constraintsSet) != [] ==>
      && item.constraintsSet == old(item.constraintsSet) && item.layouts == old(item.layouts)
      && UpdateAll(old(item.Active()), Described(Descriptions(ds), rightToLeft))
         == if ok then Some(item.Active()) else None
    ensures old(item.constraintsSet) != [] ==>
      (ok && Members(item.Active()) == Members(Described(Descriptions(ds), rightToLeft)) <==>
       Agreeable(old(item.Active()), Described(Descriptions(ds), rightToLeft)))
    ensures old(item.constraintsSet == [] || Agreeable(item.Active(), Described(Descriptions(ds), rightToLeft))) ==>
      forall layout, p ::
        HoldAt(item.Active(), p, layout, rightToLeft) <==> AllSatisfied(ds, p, layout, rightToLeft)
  {
    hide UpdateAll, Agreeable, Members, Described, CompiledOf, Descriptions, Prepared, Distinct, HoldAt, AllSatisfied;
    ghost var before := item.Active();
    if item.constraintsSet == [] {
      assert before == [];
      NoneHold(rightToLeft);
      MakeConstraints(item, ds, rightToLeft);
      return true;
    }
    hide Equations, Flatten;
    var cs, ls, made := PrepareConstraints(ds, rightToLeft);
    ok := UpdateWithAll(item, cs, ls, rightToLeft);
    UpdateAgreesWithRemake(before, CompiledOf(cs));
    SameMembersHold(item.Active(), CompiledOf(cs), rightToLeft);
  }

  lemma NoneHold(rightToLeft: bool)
    ensures forall layout, p :: HoldAt([], p, layout, rightToLeft)
  {
  }

  lemma SameMembersHold(s: seq<Equation>, t: seq<Equation>, rightToLeft: bool)
    ensures Members(s) == Members(t) ==>
      forall layout, p :: HoldAt(s, p, layout, rightToLeft) <==> HoldAt(t, p, layout, rightToLeft)
  {
    if Members(s) == Members(t) {
      assert forall e :: (e in s <==> e in Members(s)) && (e in t <==> e in Members(t));
    }
  }
}
