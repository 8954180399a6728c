/** What a finished description demands of a layout, in terms of its own fields, and that its equations demand just that. */
module SnapMeaning {
  import opened Common
  import opened SnapAttributes
  import opened SnapCompiler

  predicate Horizontal(b: Attribute) {
    b in {Left, Right, Leading, Trailing, CenterX, LeftMargin, RightMargin, LeadingMargin, TrailingMargin,
          CenterXWithinMargins}
  }

  /** The attributes at the far end of their axis. */
  predicate Far(b: Attribute) {
    b in {Right, Bottom, Trailing, RightMargin, BottomMargin, TrailingMargin}
  }

  /** The attributes that depend on the reading direction. */
  predicate Directional(b: Attribute) {
    b in {Leading, Trailing, LeadingMargin, TrailingMargin}
  }

  predicate IsSize(b: Attribute) {
    b == Width || b == Height
  }

  /** How far from attribute `b` of the other item: a number as it is; a size on sizes and a point on positions, along
      the axis; insets inward, from the side that the attribute is at. */
  function Distance(c: Constant, b: Attribute, rightToLeft: bool): real {
    match c
    case Number(value) => value
    case Size(width, height) => if b == Width then width else if b == Height then height else 0.0
    case Point(x, y) => if IsSize(b) then 0.0 else if Horizontal(b) then x else y
    case Insets(top, left, bottom, right) =>
      if b == Width then -(left + right)
      else if b == Height then -(top + bottom)
      else
        var atRight := if Directional(b) then Far(b) != rightToLeft else Far(b);
        var inset := if Horizontal(b) then (if atRight then right else left) else if Far(b) then bottom else top;
        if Far(b) then -inset else inset
  }

  lemma DistanceIsConstant(c: Constant, b: Attribute, rightToLeft: bool)
    ensures ConstantFor(c, b, rightToLeft) == Distance(c, b, rightToLeft)
  {
  }

  /** `x` stands in the relation to the multiple of the other value, if there is one, at the distance. */
  predicate Meets(relation: Relation, x: real, multiplier: real, other: Option<real>, distance: real) {
    var y := (if other.Some? then multiplier * other.value else 0.0) + distance;
    && (relation == Equal ==> x == y)
    && (relation == LessThanOrEqual ==> x <= y)
    && (relation == GreaterThanOrEqual ==> x >= y)
  }

  /** What a description demands for its attribute `a`: its relation between that and the scaled attribute of the
      target, else of the superview, else nothing, at the distance. Sizes are never compared with the superview's. */
  ghost predicate Demands(item: ItemId, superview: Option<ItemId>, from: Mask, target: Option<ItemId>, to: Mask,
                          relation: Relation, multiplier: real, constant: Constant,
                          layout: ItemId -> Geometry, rightToLeft: bool, a: Attribute) {
    var second := SecondAttribute(from, to, target.Some?, a);
    && second.Some?
    && var b := second.value;
       var other := if target.Some? then target else if IsSize(b) then None else superview;
       Meets(relation, Value(layout(item), a, rightToLeft), multiplier,
             if other.Some? then Some(Value(layout(other.value), b, rightToLeft)) else None,
             Distance(constant, b, rightToLeft))
  }

  ghost predicate DemandsAt(d: Description, layout: ItemId -> Geometry, rightToLeft: bool, a: Attribute) {
    Demands(d.item, d.superview, d.from, d.target, d.to, d.relation, d.multiplier, d.constant, layout, rightToLeft, a)
  }

  lemma MeetsIsRelated(relation: Relation, x: real, multiplier: real, other: Option<real>, distance: real)
    ensures Meets(relation, x, multiplier, other, distance)
       <==> Related(relation, x, if other.Some? then Scaled(multiplier, other.value) + distance else distance)
  {
  }

  lemma SecondItemIs(d: Description, b: Attribute)
    ensures SecondItem(d, b) == if d.target.Some? then d.target else if IsSize(b) then None else d.superview
  {
  }

  /** The equation for one attribute demands what the description does. */
  lemma EquationDemands(d: Description, layout: ItemId -> Geometry, rightToLeft: bool, a: Attribute)
    requires a in LayoutAttributes(d.from)
    ensures HoldsFor(d, layout, rightToLeft, a) <==> DemandsAt(d, layout, rightToLeft, a)
  {
    SecondAttributeTotal(d.from, d.to, d.target.Some?, a);
    hide SecondAttribute, SecondItem, Value, ConstantFor, Distance, Scaled, Related, HoldsFor, LayoutAttributes, IsSize,
      Meets;
    var b := SecondAttribute(d.from, d.to, d.target.Some?, a).value;
    EquationMeaning(d, layout, rightToLeft, a, b);
    DistanceIsConstant(d.constant, b, rightToLeft);
    SecondItemIs(d, b);
    var other := SecondItem(d, b);
    MeetsIsRelated(d.relation, Value(layout(d.item), a, rightToLeft), d.multiplier,
                   if other.Some? then Some(Value(layout(other.value), b, rightToLeft)) else None,
                   Distance(d.constant, b, rightToLeft));
  }

  /** For every description, whatever its mask, relation, multiplier and constant: a layout satisfies the compiled
      equations if and only if it meets the demand for each attribute. */
  lemma CompiledDemands(d: Description, layout: ItemId -> Geometry, rightToLeft: bool)
    ensures Compile(d, rightToLeft).Some?
    ensures AllHold(Compile(d, rightToLeft).value, layout, rightToLeft)
            <==> forall a :: a in LayoutAttributes(d.from) ==> DemandsAt(d, layout, rightToLeft, a)
  {
    hide *;
    CompiledMeaning(d, layout, rightToLeft);
    forall a | a in LayoutAttributes(d.from)
      ensures HoldsFor(d, layout, rightToLeft, a) <==> DemandsAt(d, layout, rightToLeft, a)
    {
      EquationDemands(d, layout, rightToLeft, a);
    }
  }

  // ---------------------------------------------------------------------------------------------
  // Strength
  // ---------------------------------------------------------------------------------------------

  /** The equations of one priority hold. */
  ghost predicate HoldAt(es: seq<Equation>, priority: real, layout: ItemId -> Geometry, rightToLeft: bool) {
    forall e :: e in es && e.key.priority == priority ==> Holds(e, layout, rightToLeft)
  }

  lemma HoldAtConcat(s: seq<Equation>, t: seq<Equation>, priority: real, layout: ItemId -> Geometry, rightToLeft: bool)
    ensures HoldAt(s + t, priority, layout, rightToLeft)
            <==> HoldAt(s, priority, layout, rightToLeft) && HoldAt(t, priority, layout, rightToLeft)
  {
    assert forall e :: e in s + t <==> e in s || e in t;
  }

  lemma CarriesPriority(d: Description, rightToLeft: bool)
    ensures var r := Compile(d, rightToLeft);
            r.Some? && forall e :: e in r.value ==> e.key.priority == d.priority && e.key.firstItem == d.item
  {
    CompileTotal(d, rightToLeft);
    hide Compile, LayoutAttributes, SecondAttribute, SecondItem, ConstantFor;
    var es := Compile(d, rightToLeft).value;
    forall e | e in es
      ensures e.key.priority == d.priority && e.key.firstItem == d.item
    {
      var i :| 0 <= i < |es| && es[i] == e;
      assert Some(es[i]) == EquationFor(d, rightToLeft, LayoutAttributes(d.from)[i]);
    }
  }

  /** The demands of a description are made at its own priority, and no others. */
  lemma CompiledAt(d: Description, priority: real, layout: ItemId -> Geometry, rightToLeft: bool)
    ensures Compile(d, rightToLeft).Some?
    ensures HoldAt(Compile(d, rightToLeft).value, priority, layout, rightToLeft)
            <==> (d.priority == priority ==>
                  forall a :: a in LayoutAttributes(d.from) ==> DemandsAt(d, layout, rightToLeft, a))
  {
    CarriesPriority(d, rightToLeft);
    CompiledDemands(d, layout, rightToLeft);
    hide Compile, LayoutAttributes, DemandsAt, Holds;
  }

  // ---------------------------------------------------------------------------------------------
  // The constants
  // ---------------------------------------------------------------------------------------------

  /** The demand for attribute `a` at a given distance. */
  ghost predicate MeetsWith(d: Description, layout: ItemId -> Geometry, rightToLeft: bool, a: Attribute, distance: real) {
    var second := SecondAttribute(d.from, d.to, d.target.Some?, a);
    && second.Some?
    && var b := second.value;
       var other := if d.target.Some? then d.target else if IsSize(b) then None else d.superview;
       Meets(d.relation, Value(layout(d.item), a, rightToLeft), d.multiplier,
             if other.Some? then Some(Value(layout(other.value), b, rightToLeft)) else None, distance)
  }

  /** An offset: a number is the distance itself, for any mask, relation and multiplier. */
  lemma NumberSolution(d: Description, layout: ItemId -> Geometry, rightToLeft: bool, v: real)
    requires d.constant == Number(v)
    ensures Compile(d, rightToLeft).Some?
    ensures AllHold(Compile(d, rightToLeft).value, layout, rightToLeft)
            <==> forall a :: a in LayoutAttributes(d.from) ==> MeetsWith(d, layout, rightToLeft, a, v)
  {
    CompiledDemands(d, layout, rightToLeft);
    forall a | a in LayoutAttributes(d.from)
      ensures DemandsAt(d, layout, rightToLeft, a) <==> MeetsWith(d, layout, rightToLeft, a, v)
    {
      SecondAttributeTotal(d.from, d.to, d.target.Some?, a);
      hide SecondAttribute, LayoutAttributes, Compile, AllHold, Meets, Value;
    }
    hide *;
  }

  /** A point on positions: the horizontal ones are at distance `x`, the vertical ones, baselines included, at `y`. */
  lemma PointSolution(d: Description, layout: ItemId -> Geometry, rightToLeft: bool, x: real, y: real)
    requires d.constant == Point(x, y)
    requires forall a :: a in LayoutAttributes(d.from) ==>
      SecondAttribute(d.from, d.to, d.target.Some?, a) !in {Some(Width), Some(Height)}
    ensures Compile(d, rightToLeft).Some?
    ensures AllHold(Compile(d, rightToLeft).value, layout, rightToLeft)
            <==> forall a :: a in LayoutAttributes(d.from) ==>
                   var second := SecondAttribute(d.from, d.to, d.target.Some?, a);
                   MeetsWith(d, layout, rightToLeft, a, if second.Some? && Horizontal(second.value) then x else y)
  {
    CompiledDemands(d, layout, rightToLeft);
    forall a | a in LayoutAttributes(d.from)
      ensures var second := SecondAttribute(d.from, d.to, d.target.Some?, a);
              DemandsAt(d, layout, rightToLeft, a)
              <==> MeetsWith(d, layout, rightToLeft, a, if second.Some? && Horizontal(second.value) then x else y)
    {
      SecondAttributeTotal(d.from, d.to, d.target.Some?, a);
      hide SecondAttribute, LayoutAttributes, Compile, AllHold, Meets, Value, Horizontal;
    }
    hide *;
  }

  /** What an accepted attribute is compared with: itself without attributes of the other item, except that a center
      without target is compared with the superview's top left corner; the only one, if there is one; else itself, or
      the same side when edges meet margins. */
  lemma SecondMeaning(from: Mask, to: Mask, hasTarget: bool, a: Attribute)
    requires Defined(from) && Defined(to) && Accepts(from, to) && a in LayoutAttributes(from)
    ensures SecondAttribute(from, to, hasTarget, a)
            == Some(if LayoutAttributes(to) == [] then
                      if hasTarget then a else if a == CenterX then Left else if a == CenterY then Top else a
                    else if |LayoutAttributes(to)| == 1 then LayoutAttributes(to)[0]
                    else if from == to then a
                    else Opposite(a))
  {
    if |LayoutAttributes(to)| >= 2 {
      Counterparts(from, to, a);
      SecondIgnoresTarget(from, to, hasTarget, a);
    } else if |LayoutAttributes(to)| == 1 {
      SecondOfOne(from, to, hasTarget, a);
    }
  }

  lemma SecondIgnoresTarget(from: Mask, to: Mask, hasTarget: bool, a: Attribute)
    requires LayoutAttributes(to) != []
    ensures SecondAttribute(from, to, hasTarget, a) == SecondAttribute(from, to, true, a)
  {
  }

  lemma SecondOfOne(from: Mask, to: Mask, hasTarget: bool, a: Attribute)
    requires |LayoutAttributes(to)| == 1 && a in LayoutAttributes(from)
    ensures SecondAttribute(from, to, hasTarget, a) == Some(LayoutAttributes(to)[0])
  {
    EdgesAndMargins();
  }
}
