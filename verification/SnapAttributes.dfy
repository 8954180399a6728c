/** Sets of layout attributes as bit masks, and the lists they stand for. */
module SnapAttributes {
  type Mask = nat

  datatype Attribute =
    | Left | Top | Right | Bottom | Leading | Trailing | Width | Height | CenterX | CenterY
    | LastBaseline | FirstBaseline | LeftMargin | RightMargin | TopMargin | BottomMargin
    | LeadingMargin | TrailingMargin | CenterXWithinMargins | CenterYWithinMargins

  const EDGES: Mask := 15
  const SIZE: Mask := 192
  const CENTER: Mask := 768
  const MARGINS: Mask := 61440

  function Bit(a: Attribute): Mask {
    match a
    case Left => 1
    case Top => 2
    case Right => 4
    case Bottom => 8
    case Leading => 16
    case Trailing => 32
    case Width => 64
    case Height => 128
    case CenterX => 256
    case CenterY => 512
    case LastBaseline => 1024
    case FirstBaseline => 2048
    case LeftMargin => 4096
    case RightMargin => 8192
    case TopMargin => 16384
    case BottomMargin => 32768
    case LeadingMargin => 65536
    case TrailingMargin => 131072
    case CenterXWithinMargins => 262144
    case CenterYWithinMargins => 524288
  }

  /** The order in which a list of attributes is put together. */
  function InOrder(i: nat): Attribute
    requires i < 20
  {
    [Left, Top, Right, Bottom, Leading, Trailing, Width, Height, CenterX, CenterY,
     LastBaseline, FirstBaseline, LeftMargin, RightMargin, TopMargin, BottomMargin,
     LeadingMargin, TrailingMargin, CenterXWithinMargins, CenterYWithinMargins][i]
  }

  function Order(): (order: seq<Attribute>)
    ensures |order| == 20
  {
    seq(20, i requires 0 <= i < 20 => InOrder(i))
  }

  function Rank(a: Attribute): nat {
    match a
    case Left => 0
    case Top => 1
    case Right => 2
    case Bottom => 3
    case Leading => 4
    case Trailing => 5
    case Width => 6
    case Height => 7
    case CenterX => 8
    case CenterY => 9
    case LastBaseline => 10
    case FirstBaseline => 11
    case LeftMargin => 12
    case RightMargin => 13
    case TopMargin => 14
    case BottomMargin => 15
    case LeadingMargin => 16
    case TrailingMargin => 17
    case CenterXWithinMargins => 18
    case CenterYWithinMargins => 19
  }

  /** Whether bit `i` is set. */
  predicate Has(m: Mask, i: nat) {
    if i == 0 then m % 2 == 1 else Has(m / 2, i - 1)
  }

  predicate Contains(m: Mask, a: Attribute) {
    Has(m, Rank(a))
  }

  /** No bits but those of attributes. */
  predicate Defined(m: Mask) {
    m < 0x10_0000
  }

  /** `formUnion`, bit by bit. */
  function Union(l: Mask, r: Mask): Mask {
    if l == 0 && r == 0 then 0
    else (if l % 2 == 1 || r % 2 == 1 then 1 else 0) + 2 * Union(l / 2, r / 2)
  }

  /** `subtract`, bit by bit. */
  function Difference(l: Mask, r: Mask): Mask {
    if l == 0 then 0
    else (if l % 2 == 1 && r % 2 == 0 then 1 else 0) + 2 * Difference(l / 2, r / 2)
  }

  function Select(order: seq<Attribute>, m: Mask): seq<Attribute> {
    if order == [] then []
    else if Contains(m, order[0]) then [order[0]] + Select(order[1..], m)
    else Select(order[1..], m)
  }

  function LayoutAttributes(m: Mask): seq<Attribute> {
    Select(Order(), m)
  }

  ghost predicate Ascending(s: seq<Attribute>) {
    forall i, j :: 0 <= i < j < |s| ==> Rank(s[i]) < Rank(s[j])
  }

  lemma OrderIsComplete(a: Attribute)
    ensures Rank(a) < |Order()| && Order()[Rank(a)] == a
  {
  }

  lemma OrderAscends(i: nat)
    requires i < |Order()|
    ensures Rank(Order()[i]) == i
  {
  }

  lemma {:induction false} SelectExact(order: seq<Attribute>, m: Mask)
    requires Ascending(order)
    ensures forall a :: a in Select(order, m) <==> a in order && Contains(m, a)
    ensures Ascending(Select(order, m))
  {
    if order != [] {
      var rest := Select(order[1..], m);
      assert forall a :: a in order <==> a == order[0] || a in order[1..];
      SelectExact(order[1..], m);
      forall a | a in rest ensures Rank(order[0]) < Rank(a) {
        var i :| 0 <= i < |order[1..]| && order[1..][i] == a;
        assert order[i + 1] == a;
      }
    }
  }

  /** The list holds exactly the attributes of the mask, each once, in the fixed order. */
  lemma LayoutAttributesExact(m: Mask)
    ensures forall a :: a in LayoutAttributes(m) <==> Contains(m, a)
    ensures Ascending(LayoutAttributes(m))
  {
    forall i, j | 0 <= i < j < |Order()| ensures Rank(Order()[i]) < Rank(Order()[j]) {
      OrderAscends(i);
      OrderAscends(j);
    }
    SelectExact(Order(), m);
    forall a: Attribute ensures a in Order() {
      OrderIsComplete(a);
    }
  }

  /** A list in the fixed order is determined by its members. */
  lemma {:induction false} AscendingUnique(s: seq<Attribute>, t: seq<Attribute>)
    requires Ascending(s) && Ascending(t) && forall a :: a in s <==> a in t
    ensures s == t
  {
    assert |t| > 0 ==> t[0] in t;
    if s != [] {
      assert s[0] in t && t[0] in s;
      assert s[0] == t[0];
      forall a ensures a in s[1..] <==> a in t[1..] {
        assert a in s[1..] <==> a in s && a != s[0];
        assert a in t[1..] <==> a in t && a != t[0];
      }
      AscendingUnique(s[1..], t[1..]);
    }
  }

  // ---------------------------------------------------------------------------------------------
  // Masks and their bits
  // ---------------------------------------------------------------------------------------------

  function Pow2(k: nat): (p: nat)
    ensures p > 0
  {
    if k == 0 then 1 else 2 * Pow2(k - 1)
  }

  lemma {:induction false} Pow2Has(k: nat, i: nat)
    ensures Has(Pow2(k), i) <==> i == k
  {
    if k == 0 {
      if i > 0 { ZeroHas(i - 1); }
    } else if i > 0 {
      Pow2Has(k - 1, i - 1);
    }
  }

  lemma {:induction false} ZeroHas(i: nat)
    ensures !Has(0, i)
  {
    if i > 0 { ZeroHas(i - 1); }
  }

  lemma BitIsPower(a: Attribute)
    ensures Bit(a) == Pow2(Rank(a)) && Pow2(20) == 0x10_0000
  {
    assert Pow2(1) == 2 && Pow2(2) == 4 && Pow2(3) == 8 && Pow2(4) == 16 && Pow2(5) == 32;
    assert Pow2(6) == 64 && Pow2(7) == 128 && Pow2(8) == 256 && Pow2(9) == 512 && Pow2(10) == 1024;
    assert Pow2(11) == 2048 && Pow2(12) == 4096 && Pow2(13) == 8192 && Pow2(14) == 16384 && Pow2(15) == 32768;
    assert Pow2(16) == 65536 && Pow2(17) == 131072 && Pow2(18) == 262144 && Pow2(19) == 524288;
  }

  /** Adding a higher bit adds just that bit. */
  lemma {:induction false} AddHas(m: Mask, k: nat, i: nat)
    requires m < Pow2(k)
    ensures Has(m + Pow2(k), i) <==> i == k || Has(m, i)
  {
    if k == 0 {
      Pow2Has(0, i);
      ZeroHas(i);
    } else if i > 0 {
      AddHas(m / 2, k - 1, i - 1);
    }
  }

  /** The constant of an attribute has that attribute's bit, and no other. */
  lemma BitHas(a: Attribute, i: nat)
    ensures Has(Bit(a), i) <==> i == Rank(a)
  {
    BitIsPower(a);
    Pow2Has(Rank(a), i);
  }

  lemma {:induction false} UnionHas(l: Mask, r: Mask, i: nat)
    ensures Has(Union(l, r), i) <==> Has(l, i) || Has(r, i)
  {
    if l == 0 && r == 0 {
      ZeroHas(i);
    } else if i > 0 {
      UnionHas(l / 2, r / 2, i - 1);
    }
  }

  lemma {:induction false} DifferenceHas(l: Mask, r: Mask, i: nat)
    ensures Has(Difference(l, r), i) <==> Has(l, i) && !Has(r, i)
  {
    if l == 0 {
      ZeroHas(i);
    } else if i > 0 {
      DifferenceHas(l / 2, r / 2, i - 1);
    }
  }

  lemma {:induction false} NoHighBits(m: Mask, k: nat, i: nat)
    requires m < Pow2(k) && k <= i
    ensures !Has(m, i)
  {
    if k == 0 {
      ZeroHas(i);
    } else {
      NoHighBits(m / 2, k - 1, i - 1);
    }
  }

  lemma {:induction false} SameBitsSameMask(l: Mask, r: Mask)
    requires forall i: nat :: Has(l, i) <==> Has(r, i)
    ensures l == r
    decreases l + r
  {
    if l + r > 0 {
      assert Has(l, 0) <==> Has(r, 0);
      forall i: nat ensures Has(l / 2, i) <==> Has(r / 2, i) {
        assert Has(l, i + 1) <==> Has(r, i + 1);
      }
      SameBitsSameMask(l / 2, r / 2);
    }
  }

  /** Masks are compared by value, lists by elements: for masks of attributes that is the same. */
  lemma SameListSameMask(l: Mask, r: Mask)
    requires Defined(l) && Defined(r)
    ensures LayoutAttributes(l) == LayoutAttributes(r) <==> l == r
  {
    if LayoutAttributes(l) == LayoutAttributes(r) {
      LayoutAttributesExact(l);
      LayoutAttributesExact(r);
      BitIsPower(Left);
      forall i: nat ensures Has(l, i) <==> Has(r, i) {
        if i < 20 {
          OrderAscends(i);
          assert Contains(l, Order()[i]) <==> Contains(r, Order()[i]);
        } else {
          NoHighBits(l, 20, i);
          NoHighBits(r, 20, i);
        }
      }
      SameBitsSameMask(l, r);
    }
  }

  /** `+`: an attribute is listed when either side lists it. */
  lemma UnionLists(l: Mask, r: Mask, a: Attribute)
    ensures a in LayoutAttributes(Union(l, r)) <==> a in LayoutAttributes(l) || a in LayoutAttributes(r)
  {
    LayoutAttributesExact(Union(l, r));
    LayoutAttributesExact(l);
    LayoutAttributesExact(r);
    UnionHas(l, r, Rank(a));
  }

  /** `-=`: an attribute is listed when the left side lists it and the right side does not. */
  lemma DifferenceLists(l: Mask, r: Mask, a: Attribute)
    ensures a in LayoutAttributes(Difference(l, r)) <==> a in LayoutAttributes(l) && a !in LayoutAttributes(r)
  {
    LayoutAttributesExact(Difference(l, r));
    LayoutAttributesExact(l);
    LayoutAttributesExact(r);
    DifferenceHas(l, r, Rank(a));
  }

  lemma AggregateList(m: Mask, s: seq<Attribute>)
    requires Ascending(s) && forall a :: a in s <==> Contains(m, a)
    ensures LayoutAttributes(m) == s
  {
    LayoutAttributesExact(m);
    AscendingUnique(LayoutAttributes(m), s);
  }

  /** Four successive bits from bit `k` on. */
  lemma FourBits(k: nat, i: nat)
    ensures Has(15 * Pow2(k), i) <==> k <= i < k + 4
  {
    var b := Pow2(k);
    assert Pow2(k + 1) == 2 * b && Pow2(k + 2) == 4 * b && Pow2(k + 3) == 8 * b;
    Pow2Has(k, i);
    AddHas(b, k + 1, i);
    AddHas(3 * b, k + 2, i);
    AddHas(7 * b, k + 3, i);
  }

  /** Which attributes have the bits of the aggregates. */
  lemma Ranks(a: Attribute)
    ensures Rank(a) < 4 <==> a in [Left, Top, Right, Bottom]
    ensures 6 <= Rank(a) < 8 <==> a in [Width, Height]
    ensures 8 <= Rank(a) < 10 <==> a in [CenterX, CenterY]
    ensures 12 <= Rank(a) < 16 <==> a in [LeftMargin, RightMargin, TopMargin, BottomMargin]
  {
  }

  lemma EdgesList(a: Attribute)
    ensures Contains(EDGES, a) <==> a in [Left, Top, Right, Bottom]
  {
    Ranks(a);
    FourBits(0, Rank(a));
  }

  lemma MarginsList(a: Attribute)
    ensures Contains(MARGINS, a) <==> a in [LeftMargin, RightMargin, TopMargin, BottomMargin]
  {
    Ranks(a);
    BitIsPower(LeftMargin);
    FourBits(12, Rank(a));
  }

  /** Two successive bits from bit `k` on. */
  lemma TwoBits(k: nat, i: nat)
    ensures Has(3 * Pow2(k), i) <==> k <= i < k + 2
  {
    assert Pow2(k + 1) == 2 * Pow2(k);
    Pow2Has(k, i);
    AddHas(Pow2(k), k + 1, i);
  }

  lemma SizeList(a: Attribute)
    ensures Contains(SIZE, a) <==> a in [Width, Height]
  {
    Ranks(a);
    BitIsPower(Width);
    TwoBits(6, Rank(a));
  }

  lemma CenterList(a: Attribute)
    ensures Contains(CENTER, a) <==> a in [CenterX, CenterY]
  {
    Ranks(a);
    BitIsPower(CenterX);
    TwoBits(8, Rank(a));
  }

  /** What the aggregates for sizes and centers stand for. */
  lemma SizeAndCenter(a: Attribute)
    ensures a in LayoutAttributes(SIZE) <==> a in [Width, Height]
    ensures a in LayoutAttributes(CENTER) <==> a in [CenterX, CenterY]
  {
    LayoutAttributesExact(SIZE);
    LayoutAttributesExact(CENTER);
    SizeList(a);
    CenterList(a);
  }

  lemma EdgesAscend(s: seq<Attribute>)
    requires s == [Left, Top, Right, Bottom] || s == [LeftMargin, RightMargin, TopMargin, BottomMargin]
    ensures Ascending(s)
  {
  }

  /** What the two aggregates stand for that may be related to each other. */
  lemma EdgesAndMargins()
    ensures LayoutAttributes(EDGES) == [Left, Top, Right, Bottom]
    ensures LayoutAttributes(MARGINS) == [LeftMargin, RightMargin, TopMargin, BottomMargin]
  {
    var edges, margins := [Left, Top, Right, Bottom], [LeftMargin, RightMargin, TopMargin, BottomMargin];
    EdgesAscend(edges);
    EdgesAscend(margins);
    forall a ensures a in edges <==> Contains(EDGES, a) {
      EdgesList(a);
    }
    forall a ensures a in margins <==> Contains(MARGINS, a) {
      MarginsList(a);
    }
    AggregateList(EDGES, edges);
    AggregateList(MARGINS, margins);
  }
}
