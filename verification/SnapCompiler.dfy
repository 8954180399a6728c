/** How the description of a constraint becomes layout equations, and what the equations mean. */
module SnapCompiler {
  import opened Common
  import opened SnapAttributes

  type ItemId = nat

  datatype Relation = Equal | LessThanOrEqual | GreaterThanOrEqual

  datatype Constant =
    | Number(value: real)
    | Size(width: real, height: real)
    | Point(x: real, y: real)
    | Insets(top: real, left: real, bottom: real, right: real)

  /** A finished description: `item`'s attributes `from` against the attributes `to` of `target`, if any. */
  datatype Description = Description(
    item: ItemId, superview: Option<ItemId>, from: Mask,
    target: Option<ItemId>, to: Mask,
    relation: Relation, multiplier: real, constant: Constant, priority: real)

  /** Everything but the constant: what `==` compares. Without second item there is no second attribute. */
  datatype Key = Key(
    firstItem: ItemId, firstAttribute: Attribute, relation: Relation,
    secondItem: Option<ItemId>, secondAttribute: Option<Attribute>, multiplier: real, priority: real)

  datatype Equation = Equation(key: Key, constant: real)

  function ConstantFor(c: Constant, a: Attribute, rightToLeft: bool): real {
    match c
    case Number(value) => value
    case Size(width, height) => if a == Width then width else if a == Height then height else 0.0
    case Point(x, y) =>
      (match a
       case Left | Right | Leading | Trailing | CenterX | LeftMargin | RightMargin
         | LeadingMargin | TrailingMargin | CenterXWithinMargins => x
       case Top | Bottom | CenterY | TopMargin | BottomMargin | CenterYWithinMargins
         | LastBaseline | FirstBaseline => y
       case Width | Height => 0.0)
    case Insets(top, left, bottom, right) =>
      (match a
       case Left | LeftMargin | CenterX | CenterXWithinMargins => left
       case Top | TopMargin | CenterY | CenterYWithinMargins | LastBaseline | FirstBaseline => top
       case Right | RightMargin => -right
       case Bottom | BottomMargin => -bottom
       case Leading | LeadingMargin => if rightToLeft then right else left
       case Trailing | TrailingMargin => if rightToLeft then -left else -right
       case Width => -(left + right)
       case Height => -(top + bottom))
  }

  /** What `relatedTo` accepts as the attributes of the other item. */
  predicate Accepts(from: Mask, to: Mask) {
    || to == 0
    || |LayoutAttributes(to)| <= 1
    || LayoutAttributes(to) == LayoutAttributes(from)
    || (to == EDGES && from == MARGINS)
    || (to == MARGINS && from == EDGES)
  }

  /** The second attribute for the first attribute `a`; none where the source traps. */
  function SecondAttribute(from: Mask, to: Mask, hasTarget: bool, a: Attribute): Option<Attribute> {
    if |LayoutAttributes(to)| > 0 then
      if from == EDGES && to == MARGINS then
        match a
        case Left => Some(LeftMargin)
        case Right => Some(RightMargin)
        case Top => Some(TopMargin)
        case Bottom => Some(BottomMargin)
        case _ => None
      else if from == MARGINS && to == EDGES then
        match a
        case LeftMargin => Some(Left)
        case RightMargin => Some(Right)
        case TopMargin => Some(Top)
        case BottomMargin => Some(Bottom)
        case _ => None
      else if from == to then Some(a)
      else Some(LayoutAttributes(to)[0])
    else if !hasTarget && (a == CenterX || a == CenterY) then
      Some(if a == CenterX then Left else Top)
    else Some(a)
  }

  /** The superview stands in for a missing target, except for sizes. */
  function SecondItem(d: Description, second: Attribute): Option<ItemId> {
    if d.target.Some? then d.target
    else if second != Width && second != Height then d.superview
    else None
  }

  function EquationFor(d: Description, rightToLeft: bool, a: Attribute): Option<Equation> {
    var second := SecondAttribute(d.from, d.to, d.target.Some?, a);
    if second.None? then None
    else
      var item := SecondItem(d, second.value);
      Some(Equation(
        Key(d.item, a, d.relation, item, if item.Some? then second else None, d.multiplier, d.priority),
        ConstantFor(d.constant, second.value, rightToLeft)))
  }

  function CompileList(d: Description, rightToLeft: bool, attributes: seq<Attribute>): Option<seq<Equation>> {
    if attributes == [] then Some([])
    else
      var rest := CompileList(d, rightToLeft, attributes[..|attributes| - 1]);
      var last := EquationFor(d, rightToLeft, attributes[|attributes| - 1]);
      if rest.None? || last.None? then None else Some(rest.value + [last.value])
  }

  /** The equations of a constraint, in the order in which `init` appends them. */
  function Compile(d: Description, rightToLeft: bool): Option<seq<Equation>> {
    CompileList(d, rightToLeft, LayoutAttributes(d.from))
  }

  // ---------------------------------------------------------------------------------------------
  // Compilation is total, and its guard is exact
  // ---------------------------------------------------------------------------------------------

  lemma SecondAttributeTotal(from: Mask, to: Mask, hasTarget: bool, a: Attribute)
    requires a in LayoutAttributes(from)
    ensures SecondAttribute(from, to, hasTarget, a).Some?
  {
    EdgesAndMargins();
  }

  lemma {:induction false} CompileListTotal(d: Description, rightToLeft: bool, attributes: seq<Attribute>)
    requires forall a :: a in attributes ==> a in LayoutAttributes(d.from)
    ensures var r := CompileList(d, rightToLeft, attributes);
            && r.Some? && |r.value| == |attributes|
            && forall i :: 0 <= i < |attributes| ==> Some(r.value[i]) == EquationFor(d, rightToLeft, attributes[i])
  {
    if attributes != [] {
      CompileListTotal(d, rightToLeft, attributes[..|attributes| - 1]);
      SecondAttributeTotal(d.from, d.to, d.target.Some?, attributes[|attributes| - 1]);
    }
  }

  /** Whatever the masks, `init` does not trap: it makes one equation for each attribute, in the fixed order. */
  lemma CompileTotal(d: Description, rightToLeft: bool)
    ensures var r := Compile(d, rightToLeft);
            && r.Some? && |r.value| == |LayoutAttributes(d.from)|
            && forall i :: 0 <= i < |r.value| ==>
                 Some(r.value[i]) == EquationFor(d, rightToLeft, LayoutAttributes(d.from)[i])
  {
    CompileListTotal(d, rightToLeft, LayoutAttributes(d.from));
  }

  lemma NoAttributes()
    ensures LayoutAttributes(0) == []
  {
    LayoutAttributesExact(0);
    forall a ensures !Contains(0, a) {
      ZeroHas(Rank(a));
    }
    AscendingUnique(LayoutAttributes(0), []);
  }

  /** The other one of a side of the edges and the same side of the margins. */
  function Opposite(a: Attribute): Attribute {
    match a
    case Left => LeftMargin
    case Right => RightMargin
    case Top => TopMargin
    case Bottom => BottomMargin
    case LeftMargin => Left
    case RightMargin => Right
    case TopMargin => Top
    case BottomMargin => Bottom
    case _ => a
  }

  lemma OppositeTwice(a: Attribute)
    ensures Opposite(Opposite(a)) == a
  {
  }

  /** Some attribute in `from` is compared with `b`. */
  ghost predicate Used(from: Mask, to: Mask, b: Attribute) {
    exists a :: a in LayoutAttributes(from) && SecondAttribute(from, to, true, a) == Some(b)
  }

  lemma EdgesAgainstMargins(from: Mask, to: Mask, a: Attribute)
    requires (from == EDGES && to == MARGINS) || (from == MARGINS && to == EDGES)
    requires a in LayoutAttributes(from)
    ensures SecondAttribute(from, to, true, a) == Some(Opposite(a)) && Opposite(a) in LayoutAttributes(to)
  {
    EdgesAndMargins();
  }

  /** Accepted, each attribute is compared with itself, or with its opposite when edges meet margins. */
  lemma Counterparts(from: Mask, to: Mask, a: Attribute)
    requires Defined(from) && Defined(to) && Accepts(from, to) && |LayoutAttributes(to)| >= 2
    requires a in LayoutAttributes(from)
    ensures var b := if from == to then a else Opposite(a);
            SecondAttribute(from, to, true, a) == Some(b) && b in LayoutAttributes(to)
  {
    SameListSameMask(from, to);
    if from != to {
      NoAttributes();
      EdgesAgainstMargins(from, to, a);
    } else {
      SameMask(from, a);
    }
  }

  lemma SameMask(m: Mask, a: Attribute)
    requires a in LayoutAttributes(m)
    ensures SecondAttribute(m, m, true, a) == Some(a)
  {
  }

  lemma AcceptedUsesAll(from: Mask, to: Mask, b: Attribute)
    requires Defined(from) && Defined(to) && Accepts(from, to)
    requires |LayoutAttributes(to)| >= 2 && b in LayoutAttributes(to)
    ensures Used(from, to, b)
  {
    SameListSameMask(from, to);
    if from == to {
      Counterparts(from, to, b);
    } else {
      NoAttributes();
      EdgesAgainstMargins(to, from, b);
      OppositeTwice(b);
      Counterparts(from, to, Opposite(b));
    }
  }

  /** The guard is exact: a description is accepted if and only if it is related to at most one attribute, or every one
      of them is compared with some attribute of its own. */
  lemma GuardIsExact(from: Mask, to: Mask)
    requires Defined(from) && Defined(to)
    ensures Accepts(from, to)
       <==> |LayoutAttributes(to)| < 2 || forall b :: b in LayoutAttributes(to) ==> Used(from, to, b)
  {
    if |LayoutAttributes(to)| < 2 {
      assert Accepts(from, to);
    } else if Accepts(from, to) {
      forall b | b in LayoutAttributes(to) ensures Used(from, to, b) {
        AcceptedUsesAll(from, to, b);
      }
    } else {
      LayoutAttributesExact(to);
      var b := LayoutAttributes(to)[1];
      assert LayoutAttributes(to)[0] != b;
      assert !Used(from, to, b);
    }
  }

  /** No two equations of a constraint are equal under `==`. */
  lemma KeysDiffer(d: Description, rightToLeft: bool, i: nat, j: nat)
    requires Compile(d, rightToLeft).Some? && i < j < |Compile(d, rightToLeft).value|
    ensures Compile(d, rightToLeft).value[i].key != Compile(d, rightToLeft).value[j].key
  {
    CompileTotal(d, rightToLeft);
    LayoutAttributesExact(d.from);
  }

  // ---------------------------------------------------------------------------------------------
  // Constants can be computed again
  // ---------------------------------------------------------------------------------------------

  /** The attribute by which an existing equation's constant is computed anew. */
  function ConstantAttribute(k: Key): Attribute {
    if k.secondAttribute.None? then k.firstAttribute else k.secondAttribute.value
  }

  /** An update computes the constant that a new compilation would give, although the attribute may differ. */
  lemma RecomputedConstant(d: Description, rightToLeft: bool, a: Attribute, c: Constant)
    requires d.target.None? ==> d.to == 0
    requires EquationFor(d, rightToLeft, a).Some?
    ensures var e := EquationFor(d, rightToLeft, a).value;
            && EquationFor(d.(constant := c), rightToLeft, a)
               == Some(e.(constant := ConstantFor(c, ConstantAttribute(e.key), rightToLeft)))
  {
    if d.target.None? {
      LayoutAttributesExact(0);
      NoAttributes();
    }
  }

  // ---------------------------------------------------------------------------------------------
  // What the equations mean
  // ---------------------------------------------------------------------------------------------

  /** The frame of an item, its layout margins, and its baselines. */
  datatype Geometry = Geometry(
    left: real, top: real, right: real, bottom: real,
    marginLeft: real, marginTop: real, marginRight: real, marginBottom: real,
    firstBaseline: real, lastBaseline: real)

  /** Leading and trailing are measured in reading direction. */
  function Value(g: Geometry, a: Attribute, rightToLeft: bool): real {
    match a
    case Left => g.left
    case Top => g.top
    case Right => g.right
    case Bottom => g.bottom
    case Leading => if rightToLeft then -g.right else g.left
    case Trailing => if rightToLeft then -g.left else g.right
    case Width => g.right - g.left
    case Height => g.bottom - g.top
    case CenterX => (g.left + g.right) / 2.0
    case CenterY => (g.top + g.bottom) / 2.0
    case LastBaseline => g.lastBaseline
    case FirstBaseline => g.firstBaseline
    case LeftMargin => g.left + g.marginLeft
    case RightMargin => g.right - g.marginRight
    case TopMargin => g.top + g.marginTop
    case BottomMargin => g.bottom - g.marginBottom
    case LeadingMargin => if rightToLeft then -(g.right - g.marginRight) else g.left + g.marginLeft
    case TrailingMargin => if rightToLeft then -(g.left + g.marginLeft) else g.right - g.marginRight
    case CenterXWithinMargins => (g.left + g.marginLeft + g.right - g.marginRight) / 2.0
    case CenterYWithinMargins => (g.top + g.marginTop + g.bottom - g.marginBottom) / 2.0
  }

  function Scaled(multiplier: real, x: real): real {
    multiplier * x
  }

  predicate Holds(e: Equation, layout: ItemId -> Geometry, rightToLeft: bool) {
    var k := e.key;
    var x := Value(layout(k.firstItem), k.firstAttribute, rightToLeft);
    var y := if k.secondItem.Some? && k.secondAttribute.Some?
             then Scaled(k.multiplier, Value(layout(k.secondItem.value), k.secondAttribute.value, rightToLeft)) + e.constant
             else e.constant;
    Related(k.relation, x, y)
  }

  predicate Related(r: Relation, x: real, y: real) {
    match r
    case Equal => x == y
    case LessThanOrEqual => x <= y
    case GreaterThanOrEqual => x >= y
  }

  ghost predicate AllHold(es: seq<Equation>, layout: ItemId -> Geometry, rightToLeft: bool) {
    forall i :: 0 <= i < |es| ==> Holds(es[i], layout, rightToLeft)
  }

  /** The frame of `g` is that of `t`, or the part of it within the margins, less the insets. */
  predicate IsInset(g: Geometry, t: Geometry, withinMargins: bool, insets: Constant)
    requires insets.Insets?
  {
    var left := if withinMargins then t.left + t.marginLeft else t.left;
    var top := if withinMargins then t.top + t.marginTop else t.top;
    var right := if withinMargins then t.right - t.marginRight else t.right;
    var bottom := if withinMargins then t.bottom - t.marginBottom else t.bottom;
    && g.left == left + insets.left && g.top == top + insets.top
    && g.right == right - insets.right && g.bottom == bottom - insets.bottom
  }

  /** The equation for attribute `a` of the description holds. */
  ghost predicate HoldsFor(d: Description, layout: ItemId -> Geometry, rightToLeft: bool, a: Attribute) {
    EquationFor(d, rightToLeft, a).Some? && Holds(EquationFor(d, rightToLeft, a).value, layout, rightToLeft)
  }

  /** A layout satisfies the compiled equations when it satisfies that of each attribute. */
  lemma CompiledMeaning(d: Description, layout: ItemId -> Geometry, rightToLeft: bool)
    ensures Compile(d, rightToLeft).Some?
    ensures AllHold(Compile(d, rightToLeft).value, layout, rightToLeft)
            <==> forall a :: a in LayoutAttributes(d.from) ==> HoldsFor(d, layout, rightToLeft, a)
  {
    CompileTotal(d, rightToLeft);
    var es := Compile(d, rightToLeft).value;
    if forall a :: a in LayoutAttributes(d.from) ==> HoldsFor(d, layout, rightToLeft, a) {
      forall i | 0 <= i < |es| ensures Holds(es[i], layout, rightToLeft) {
        assert HoldsFor(d, layout, rightToLeft, LayoutAttributes(d.from)[i]);
      }
    }
  }

  /** An equality without scaling against attribute `b` of item `other`. */
  predicate Offset(d: Description, layout: ItemId -> Geometry, rightToLeft: bool, a: Attribute, other: ItemId, b: Attribute) {
    Value(layout(d.item), a, rightToLeft) == Value(layout(other), b, rightToLeft) + ConstantFor(d.constant, b, rightToLeft)
  }

  predicate Unscaled(d: Description, other: ItemId) {
    d.relation == Equal && d.multiplier == 1.0 && (d.target == Some(other) || (d.target.None? && d.superview == Some(other)))
  }

  lemma CompiledEquation(d: Description, rightToLeft: bool, a: Attribute, b: Attribute)
    requires SecondAttribute(d.from, d.to, d.target.Some?, a) == Some(b)
    ensures var other := SecondItem(d, b);
            EquationFor(d, rightToLeft, a)
            == Some(Equation(Key(d.item, a, d.relation, other, if other.Some? then Some(b) else None, d.multiplier, d.priority),
                             ConstantFor(d.constant, b, rightToLeft)))
  {
    hide SecondAttribute, SecondItem, ConstantFor;
  }

  lemma OtherItem(d: Description, b: Attribute)
    ensures SecondItem(d, b).None? <==> d.target.None? && (b == Width || b == Height || d.superview.None?)
  {
  }

  /** What one equation demands, for any relation and multiplier: the attribute against the other's, or against
      the constant alone when there is no second item. Without target that is so for sizes, and for an item without
      superview. */
  lemma EquationMeaning(d: Description, layout: ItemId -> Geometry, rightToLeft: bool, a: Attribute, b: Attribute)
    requires SecondAttribute(d.from, d.to, d.target.Some?, a) == Some(b)
    ensures var other := SecondItem(d, b);
            var x := Value(layout(d.item), a, rightToLeft);
            var c := ConstantFor(d.constant, b, rightToLeft);
            var y := if other.Some? then Scaled(d.multiplier, Value(layout(other.value), b, rightToLeft)) + c else c;
            && (HoldsFor(d, layout, rightToLeft, a) <==> Related(d.relation, x, y))
            && (other.None? <==> d.target.None? && (b == Width || b == Height || d.superview.None?))
  {
    CompiledEquation(d, rightToLeft, a, b);
    OtherItem(d, b);
    hide Scaled, Value, ConstantFor, Related, SecondAttribute, SecondItem, EquationFor;
  }

  lemma UnscaledEquation(d: Description, layout: ItemId -> Geometry, rightToLeft: bool,
                         a: Attribute, other: ItemId, b: Attribute)
    requires Unscaled(d, other) && SecondAttribute(d.from, d.to, d.target.Some?, a) == Some(b)
    requires d.target.Some? || (b != Width && b != Height)
    ensures HoldsFor(d, layout, rightToLeft, a) <==> Offset(d, layout, rightToLeft, a, other, b)
  {
    EquationMeaning(d, layout, rightToLeft, a, b);
  }

  lemma SecondEdge(to: Mask, hasTarget: bool, a: Attribute)
    requires to in {0, EDGES, MARGINS} && a in [Left, Top, Right, Bottom]
    ensures SecondAttribute(EDGES, to, hasTarget, a) == Some(if to == MARGINS then Opposite(a) else a)
  {
    EdgesAndMargins();
    NoAttributes();
  }

  /** Edges equal to another item's edges or margins, with insets: the only solution is the inset rectangle. */
  lemma EdgesSolution(d: Description, layout: ItemId -> Geometry, rightToLeft: bool, other: ItemId)
    requires d.from == EDGES && d.to in {0, EDGES, MARGINS} && d.constant.Insets? && Unscaled(d, other)
    ensures var es := Compile(d, rightToLeft);
            && es.Some?
            && (AllHold(es.value, layout, rightToLeft) <==>
                IsInset(layout(d.item), layout(other), d.to == MARGINS, d.constant))
  {
    CompiledMeaning(d, layout, rightToLeft);
    EdgesAndMargins();
    forall a | a in [Left, Top, Right, Bottom]
      ensures HoldsFor(d, layout, rightToLeft, a)
              <==> Offset(d, layout, rightToLeft, a, other, if d.to == MARGINS then Opposite(a) else a)
    {
      SecondEdge(d.to, d.target.Some?, a);
      UnscaledEquation(d, layout, rightToLeft, a, other, if d.to == MARGINS then Opposite(a) else a);
    }
    InsetOffsets(d, layout, rightToLeft, other);
  }

  /** One side at a time: the offset of the side is that of the inset rectangle. */
  lemma Side(d: Description, layout: ItemId -> Geometry, rightToLeft: bool, other: ItemId, a: Attribute, withinMargins: bool)
    requires d.constant.Insets? && a in [Left, Top, Right, Bottom]
    ensures var g, t, c := layout(d.item), layout(other), d.constant;
            var m := withinMargins;
            Offset(d, layout, rightToLeft, a, other, if m then Opposite(a) else a) <==>
              match a
              case Left => g.left == (if m then t.left + t.marginLeft else t.left) + c.left
              case Top => g.top == (if m then t.top + t.marginTop else t.top) + c.top
              case Right => g.right == (if m then t.right - t.marginRight else t.right) - c.right
              case _ => g.bottom == (if m then t.bottom - t.marginBottom else t.bottom) - c.bottom
  {
  }

  lemma InsetOffsets(d: Description, layout: ItemId -> Geometry, rightToLeft: bool, other: ItemId)
    requires d.constant.Insets?
    ensures IsInset(layout(d.item), layout(other), d.to == MARGINS, d.constant)
            <==> forall a :: a in [Left, Top, Right, Bottom] ==>
                   Offset(d, layout, rightToLeft, a, other, if d.to == MARGINS then Opposite(a) else a)
  {
    Side(d, layout, rightToLeft, other, Left, d.to == MARGINS);
    Side(d, layout, rightToLeft, other, Top, d.to == MARGINS);
    Side(d, layout, rightToLeft, other, Right, d.to == MARGINS);
    Side(d, layout, rightToLeft, other, Bottom, d.to == MARGINS);
  }

  /** Top, bottom, leading and trailing with insets have the same solution, in either reading direction. */
  lemma DirectionalSolution(d: Description, layout: ItemId -> Geometry, rightToLeft: bool, other: ItemId)
    requires forall a :: a in LayoutAttributes(d.from) <==> a in [Top, Bottom, Leading, Trailing]
    requires (d.to == 0 || d.to == d.from) && d.constant.Insets? && Unscaled(d, other)
    ensures var es := Compile(d, rightToLeft);
            && es.Some?
            && (AllHold(es.value, layout, rightToLeft) <==>
                IsInset(layout(d.item), layout(other), false, d.constant))
  {
    CompiledMeaning(d, layout, rightToLeft);
    forall a | a in [Top, Bottom, Leading, Trailing]
      ensures HoldsFor(d, layout, rightToLeft, a) <==> Offset(d, layout, rightToLeft, a, other, a)
    {
      SecondSame(d, a);
      UnscaledEquation(d, layout, rightToLeft, a, other, a);
    }
    DirectionalOffsets(d, layout, rightToLeft, other);
  }

  lemma SecondSame(d: Description, a: Attribute)
    requires d.to == 0 || (d.to == d.from && a in LayoutAttributes(d.from))
    requires a != CenterX && a != CenterY
    ensures SecondAttribute(d.from, d.to, d.target.Some?, a) == Some(a)
  {
    NoAttributes();
  }

  lemma DirectionalSides(d: Description, layout: ItemId -> Geometry, rightToLeft: bool, other: ItemId)
    requires d.constant.Insets?
    ensures var g, t, c := layout(d.item), layout(other), d.constant;
            var l, r := if rightToLeft then Trailing else Leading, if rightToLeft then Leading else Trailing;
            && (Offset(d, layout, rightToLeft, l, other, l) <==> g.left == t.left + c.left)
            && (Offset(d, layout, rightToLeft, r, other, r) <==> g.right == t.right - c.right)
  {
  }

  lemma DirectionalOffsets(d: Description, layout: ItemId -> Geometry, rightToLeft: bool, other: ItemId)
    requires d.constant.Insets?
    ensures IsInset(layout(d.item), layout(other), false, d.constant)
            <==> forall a :: a in [Top, Bottom, Leading, Trailing] ==> Offset(d, layout, rightToLeft, a, other, a)
  {
    Side(d, layout, rightToLeft, other, Top, false);
    Side(d, layout, rightToLeft, other, Bottom, false);
    DirectionalSides(d, layout, rightToLeft, other);
  }

  lemma ForTwo(d: Description, layout: ItemId -> Geometry, rightToLeft: bool, p: Attribute, q: Attribute)
    requires forall a :: a in LayoutAttributes(d.from) <==> a in [p, q]
    ensures var es := Compile(d, rightToLeft);
            && es.Some?
            && (AllHold(es.value, layout, rightToLeft)
                <==> HoldsFor(d, layout, rightToLeft, p) && HoldsFor(d, layout, rightToLeft, q))
  {
    hide *;
    CompiledMeaning(d, layout, rightToLeft);
    assert p in LayoutAttributes(d.from) && q in LayoutAttributes(d.from);
  }

  /** The size equal to a constant size: exactly the frames of that size, whatever the superview. */
  lemma SizeSolution(d: Description, layout: ItemId -> Geometry, rightToLeft: bool)
    requires d.from == SIZE && d.to == 0 && d.target.None? && d.constant.Size? && d.relation == Equal
    ensures var es := Compile(d, rightToLeft);
            var g := layout(d.item);
            && es.Some?
            && (AllHold(es.value, layout, rightToLeft) <==>
                g.right - g.left == d.constant.width && g.bottom - g.top == d.constant.height)
  {
    forall a ensures a in LayoutAttributes(d.from) <==> a in [Width, Height] {
      SizeAndCenter(a);
    }
    ForTwo(d, layout, rightToLeft, Width, Height);
    SecondSame(d, Width);
    SecondSame(d, Height);
    hide LayoutAttributes, Compile, AllHold, HoldsFor, SecondAttribute, Scaled;
    EquationMeaning(d, layout, rightToLeft, Width, Width);
    EquationMeaning(d, layout, rightToLeft, Height, Height);
  }

  /** The center equal to a point: that far from another item's center, or from the superview's top left corner. */
  lemma CenterSolution(d: Description, layout: ItemId -> Geometry, rightToLeft: bool, other: ItemId)
    requires d.from == CENTER && d.to == 0 && d.constant.Point? && Unscaled(d, other)
    ensures var es := Compile(d, rightToLeft);
            var g, t := layout(d.item), layout(other);
            && es.Some?
            && (AllHold(es.value, layout, rightToLeft) <==>
                if d.target.Some? then
                  && (g.left + g.right) / 2.0 == (t.left + t.right) / 2.0 + d.constant.x
                  && (g.top + g.bottom) / 2.0 == (t.top + t.bottom) / 2.0 + d.constant.y
                else
                  && (g.left + g.right) / 2.0 == t.left + d.constant.x
                  && (g.top + g.bottom) / 2.0 == t.top + d.constant.y)
  {
    forall a ensures a in LayoutAttributes(d.from) <==> a in [CenterX, CenterY] {
      SizeAndCenter(a);
    }
    ForTwo(d, layout, rightToLeft, CenterX, CenterY);
    SecondCenter(d);
    CenterOffsets(d, layout, rightToLeft, other);
    hide *;
    var x, y := if d.target.Some? then CenterX else Left, if d.target.Some? then CenterY else Top;
    UnscaledEquation(d, layout, rightToLeft, CenterX, other, x);
    UnscaledEquation(d, layout, rightToLeft, CenterY, other, y);
  }

  /** Without target a center is compared with the superview's top left corner. */
  lemma SecondCenter(d: Description)
    requires d.to == 0
    ensures SecondAttribute(d.from, d.to, d.target.Some?, CenterX) == Some(if d.target.Some? then CenterX else Left)
    ensures SecondAttribute(d.from, d.to, d.target.Some?, CenterY) == Some(if d.target.Some? then CenterY else Top)
  {
    NoAttributes();
  }

  lemma CenterOffsets(d: Description, layout: ItemId -> Geometry, rightToLeft: bool, other: ItemId)
    requires d.constant.Point?
    ensures var g, t, c := layout(d.item), layout(other), d.constant;
            && (Offset(d, layout, rightToLeft, CenterX, other, CenterX)
                <==> (g.left + g.right) / 2.0 == (t.left + t.right) / 2.0 + c.x)
            && (Offset(d, layout, rightToLeft, CenterY, other, CenterY)
                <==> (g.top + g.bottom) / 2.0 == (t.top + t.bottom) / 2.0 + c.y)
            && (Offset(d, layout, rightToLeft, CenterX, other, Left) <==> (g.left + g.right) / 2.0 == t.left + c.x)
            && (Offset(d, layout, rightToLeft, CenterY, other, Top) <==> (g.top + g.bottom) / 2.0 == t.top + c.y)
  {
  }

  /** Insets on the size agree with insets on the edges; insets on a center do so only when opposite ones cancel. */
  lemma InsetsElsewhere(d: Description, layout: ItemId -> Geometry, rightToLeft: bool, other: ItemId)
    requires d.constant.Insets? && IsInset(layout(d.item), layout(other), false, d.constant)
    ensures Offset(d, layout, rightToLeft, Width, other, Width)
    ensures Offset(d, layout, rightToLeft, Height, other, Height)
    ensures Offset(d, layout, rightToLeft, CenterX, other, CenterX) <==> d.constant.left == -d.constant.right
    ensures Offset(d, layout, rightToLeft, CenterY, other, CenterY) <==> d.constant.top == -d.constant.bottom
  {
    var g, t, c := layout(d.item), layout(other), d.constant;
    assert (g.left + g.right) / 2.0 == (t.left + t.right) / 2.0 + (c.left - c.right) / 2.0;
    assert (g.top + g.bottom) / 2.0 == (t.top + t.bottom) / 2.0 + (c.top - c.bottom) / 2.0;
  }
}
