/** Updating the equations of an item in place, compared with making them anew. */
module SnapUpdate {
  import opened Common
  import opened SnapAttributes
  import opened SnapCompiler

  ghost predicate HasKey(s: seq<Equation>, k: Key) {
    exists e :: e in s && e.key == k
  }

  ghost predicate SameKeys(s: seq<Equation>, t: seq<Equation>) {
    forall k :: HasKey(s, k) <==> HasKey(t, k)
  }

  /** The first equation that is equal to one with key `k` under `==`. */
  function FirstMatch(s: seq<Equation>, k: Key): (r: Option<nat>)
    ensures r.Some? ==> r.value < |s| && s[r.value].key == k && forall i :: 0 <= i < r.value ==> s[i].key != k
    ensures r.None? ==> forall i :: 0 <= i < |s| ==> s[i].key != k
  {
    if s == [] then None
    else if s[0].key == k then Some(0)
    else
      var r := FirstMatch(s[1..], k);
      if r.Some? then Some(r.value + 1) else None
  }

  /** Writes the constant of `n` into its first match; without a match the source traps. */
  function UpdateOne(s: seq<Equation>, n: Equation): Option<seq<Equation>> {
    var r := FirstMatch(s, n.key);
    if r.None? then None else Some(s[r.value := Equation(n.key, n.constant)])
  }

  function UpdateAll(s: seq<Equation>, news: seq<Equation>): Option<seq<Equation>> {
    if news == [] then Some(s)
    else
      var r := UpdateAll(s, news[..|news| - 1]);
      if r.None? then None else UpdateOne(r.value, news[|news| - 1])
  }

  lemma UpdateAllNext(s: seq<Equation>, news: seq<Equation>, n: nat)
    requires n < |news|
    ensures var r := UpdateAll(s, news[..n]);
            UpdateAll(s, news[..n + 1]) == if r.None? then None else UpdateOne(r.value, news[n])
  {
    assert news[..n + 1][..n] == news[..n];
  }

  ghost predicate DistinctKeys(s: seq<Equation>) {
    forall i, j :: 0 <= i < j < |s| ==> s[i].key != s[j].key
  }

  /** No key is asked to have two constants. */
  ghost predicate Functional(s: seq<Equation>) {
    forall e, f :: e in s && f in s && e.key == f.key ==> e.constant == f.constant
  }

  /** The constant that the last of `news` with key `k` asks for. */
  function LastConstant(news: seq<Equation>, k: Key): Option<real> {
    if news == [] then None
    else if news[|news| - 1].key == k then Some(news[|news| - 1].constant)
    else LastConstant(news[..|news| - 1], k)
  }

  lemma {:induction false} LastConstantExact(news: seq<Equation>, k: Key)
    ensures LastConstant(news, k).Some? <==> HasKey(news, k)
    ensures LastConstant(news, k).Some? ==> Equation(k, LastConstant(news, k).value) in news
  {
    if news != [] {
      var n := |news| - 1;
      LastConstantExact(news[..n], k);
      assert forall e :: e in news <==> e == news[n] || e in news[..n];
    }
  }

  /** What becomes of an existing equation. */
  function Updated(e: Equation, news: seq<Equation>): Equation {
    var c := LastConstant(news, e.key);
    if c.Some? then Equation(e.key, c.value) else e
  }

  /** An equation with this key comes before index `i`, so that no update ever reaches index `i`. */
  ghost predicate Repeats(s: seq<Equation>, i: nat)
    requires i < |s|
  {
    exists j :: 0 <= j < i && s[j].key == s[i].key
  }

  /** `t` is `s` after an update: an equation that repeats a key keeps its constant, every other one gets the last
      constant asked for. */
  ghost predicate IsUpdated(t: seq<Equation>, s: seq<Equation>, news: seq<Equation>) {
    && |t| == |s|
    && forall i :: 0 <= i < |s| ==>
         t[i].key == s[i].key && t[i] == if Repeats(s, i) then s[i] else Updated(s[i], news)
  }

  /** An update takes place if and only if every new equation has an existing one with its key. It writes the last
      constant asked for into the first equation with each key, and changes nothing else. */
  lemma {:induction false} UpdateAllExact(s: seq<Equation>, news: seq<Equation>)
    ensures UpdateAll(s, news).Some? <==> forall n :: n in news ==> HasKey(s, n.key)
    ensures UpdateAll(s, news).Some? ==> IsUpdated(UpdateAll(s, news).value, s, news)
  {
    if news != [] {
      var n := |news| - 1;
      var r := UpdateAll(s, news[..n]);
      UpdateAllExact(s, news[..n]);
      assert forall e :: e in news <==> e == news[n] || e in news[..n];
      if r.Some? {
        UpdateOneExact(s, r.value, news);
      }
    }
  }

  lemma UpdateOneExact(s: seq<Equation>, t: seq<Equation>, news: seq<Equation>)
    requires news != [] && IsUpdated(t, s, news[..|news| - 1])
    ensures UpdateOne(t, news[|news| - 1]).Some? <==> HasKey(s, news[|news| - 1].key)
    ensures UpdateOne(t, news[|news| - 1]).Some? ==> IsUpdated(UpdateOne(t, news[|news| - 1]).value, s, news)
  {
    var n := news[|news| - 1];
    var j := FirstMatch(t, n.key);
    if j.Some? {
      assert s[j.value] in s;
      forall i | 0 <= i < |s| && s[i].key == n.key ensures Repeats(s, i) <==> i != j.value {
        assert t[i].key == n.key && t[j.value].key == n.key;
      }
    } else {
      forall e | e in s ensures e.key != n.key {
        var i :| 0 <= i < |s| && s[i] == e;
        assert t[i].key == e.key;
      }
    }
  }

  /** The active equations that a layout has to satisfy: repeating one makes no difference. */
  ghost function Members(s: seq<Equation>): set<Equation> {
    set e | e in s
  }

  /** With distinct keys it does not matter in which order the item lists its equations. */
  lemma UpdatedMembers(s: seq<Equation>, news: seq<Equation>, e: Equation)
    requires DistinctKeys(s) && UpdateAll(s, news).Some?
    ensures e in Members(UpdateAll(s, news).value) <==> exists o :: o in s && e == Updated(o, news)
  {
    UpdateAllExact(s, news);
    var t := UpdateAll(s, news).value;
    if e in t {
      var i :| 0 <= i < |t| && t[i] == e;
      assert s[i] in s;
    }
    if o :| o in s && e == Updated(o, news) {
      var i :| 0 <= i < |s| && s[i] == o;
      assert t[i] == e;
    }
  }

  /** `e` stands in `s` behind another equation with its key. */
  ghost predicate IsRepeat(s: seq<Equation>, e: Equation) {
    exists i :: 0 <= i < |s| && s[i] == e && Repeats(s, i)
  }

  /** What must hold of the old and the new equations before an update that is to agree with a remake: the same keys;
      each old equation that repeats a key is asked for as it is; and each new one is the last asked for its key,
      or such a repeated one. */
  ghost predicate Agreeable(s: seq<Equation>, news: seq<Equation>) {
    && SameKeys(s, news)
    && (forall i :: 0 <= i < |s| && Repeats(s, i) ==> s[i] in news)
    && (forall n :: n in news ==> LastConstant(news, n.key) == Some(n.constant) || IsRepeat(s, n))
  }

  lemma MemberOfUpdate(s: seq<Equation>, news: seq<Equation>, t: seq<Equation>, e: Equation)
    requires IsUpdated(t, s, news)
    ensures e in t <==> IsRepeat(s, e) || exists i :: 0 <= i < |s| && !Repeats(s, i) && e == Updated(s[i], news)
  {
    if e in t {
      var i :| 0 <= i < |t| && t[i] == e;
      assert Repeats(s, i) ==> s[i] == e;
    }
    if IsRepeat(s, e) {
      var i :| 0 <= i < |s| && s[i] == e && Repeats(s, i);
      assert t[i] == e;
    }
    if i :| 0 <= i < |s| && !Repeats(s, i) && e == Updated(s[i], news) {
      assert t[i] == e;
    }
  }

  /** The first equation with a key repeats nothing. */
  lemma FirstOfKey(s: seq<Equation>, k: Key) returns (i: nat)
    requires HasKey(s, k)
    ensures i < |s| && s[i].key == k && !Repeats(s, i)
  {
    i := FirstMatch(s, k).value;
  }

  /** Update agrees with remake: updating leaves exactly the new equations active, as removing the old ones and adding
      the new ones would, if and only if old and new equations are agreeable. Otherwise it traps or leaves others. */
  lemma UpdateAgreesWithRemake(s: seq<Equation>, news: seq<Equation>)
    ensures UpdateAll(s, news).Some? && Members(UpdateAll(s, news).value) == Members(news) <==> Agreeable(s, news)
  {
    UpdateAllExact(s, news);
    if UpdateAll(s, news).Some? && Members(UpdateAll(s, news).value) == Members(news) {
      AgreementNeeds(s, news);
    }
    if Agreeable(s, news) {
      AgreementFollows(s, news);
    }
  }

  lemma AgreementNeeds(s: seq<Equation>, news: seq<Equation>)
    requires UpdateAll(s, news).Some? && Members(UpdateAll(s, news).value) == Members(news)
    ensures Agreeable(s, news)
  {
    UpdateAllExact(s, news);
    var t := UpdateAll(s, news).value;
    assert forall e :: e in t <==> e in Members(t);
    assert forall e :: e in news <==> e in Members(news);
    forall k ensures HasKey(s, k) <==> HasKey(news, k) {
      if HasKey(s, k) {
        var i :| 0 <= i < |s| && s[i].key == k;
        assert t[i] in t;
      }
      if HasKey(news, k) {
        var n :| n in news && n.key == k;
        assert HasKey(s, n.key);
      }
    }
    forall i | 0 <= i < |s| && Repeats(s, i) ensures s[i] in news {
      assert t[i] in t;
    }
    forall n | n in news ensures LastConstant(news, n.key) == Some(n.constant) || IsRepeat(s, n) {
      MemberOfUpdate(s, news, t, n);
      LastConstantExact(news, n.key);
      assert HasKey(news, n.key);
    }
  }

  lemma AgreementFollows(s: seq<Equation>, news: seq<Equation>)
    requires Agreeable(s, news)
    ensures UpdateAll(s, news).Some? && Members(UpdateAll(s, news).value) == Members(news)
  {
    forall n | n in news ensures HasKey(s, n.key) {
      assert HasKey(news, n.key);
    }
    UpdateAllExact(s, news);
    var t := UpdateAll(s, news).value;
    forall e ensures e in t <==> e in news {
      MemberOfUpdate(s, news, t, e);
      if e in t && !IsRepeat(s, e) {
        var i :| 0 <= i < |s| && !Repeats(s, i) && e == Updated(s[i], news);
        assert HasKey(s, s[i].key);
        LastConstantExact(news, s[i].key);
      }
      if e in news && !IsRepeat(s, e) {
        var i := FirstOfKey(s, e.key);
        assert Updated(s[i], news) == e;
      }
    }
  }

  /** When no old equation repeats a key, that means the same keys, and one constant asked for each. */
  lemma DistinctAgreeable(s: seq<Equation>, news: seq<Equation>)
    requires DistinctKeys(s)
    ensures Agreeable(s, news) <==> SameKeys(s, news) && Functional(news)
  {
    if Agreeable(s, news) {
      forall e, f | e in news && f in news && e.key == f.key ensures e.constant == f.constant {
        assert LastConstant(news, e.key) == Some(e.constant) && LastConstant(news, f.key) == Some(f.constant);
      }
    }
    if SameKeys(s, news) && Functional(news) {
      forall n | n in news ensures LastConstant(news, n.key) == Some(n.constant) {
        assert HasKey(news, n.key);
        LastConstantExact(news, n.key);
      }
    }
  }

  /** An equation made twice and then updated leaves the second one active as it was: whatever the constants, this
      agrees with a remake only if that is the one asked for. */
  lemma TwiceMade(k: Key, first: real, second: real, asked: real)
    ensures Agreeable([Equation(k, first), Equation(k, second)], [Equation(k, asked)]) <==> second == asked
  {
    var s, news := [Equation(k, first), Equation(k, second)], [Equation(k, asked)];
    assert s[0].key == s[1].key && Repeats(s, 1);
    assert forall k' :: HasKey(s, k') <==> HasKey(news, k') by {
      assert s[0] in s && news[0] in news;
    }
    if second == asked {
      assert s[1] == news[0];
    }
  }

  // ---------------------------------------------------------------------------------------------
  // Changing one constraint
  // ---------------------------------------------------------------------------------------------

  const REQUIRED := 1000.0

  /** What an existing equation becomes when its constraint's constant and priority targets have been set. */
  function Recomputed(e: Equation, constant: Constant, priority: real, rightToLeft: bool): Equation {
    Equation(
      e.key.(priority := if e.key.priority < REQUIRED && priority != REQUIRED then priority else e.key.priority),
      ConstantFor(constant, ConstantAttribute(e.key), rightToLeft))
  }

  lemma RecomputedEquation(d: Description, constant: Constant, priority: real, rightToLeft: bool, a: Attribute)
    requires d.target.None? ==> d.to == 0
    requires EquationFor(d, rightToLeft, a).Some?
    ensures EquationFor(d.(constant := constant, priority := priority), rightToLeft, a)
            == Some(Recomputed(EquationFor(d, rightToLeft, a).value, constant, priority, rightToLeft))
            <==> priority == d.priority || (d.priority < REQUIRED && priority != REQUIRED)
  {
    RecomputedConstant(d, rightToLeft, a, constant);
    var e := EquationFor(d, rightToLeft, a).value;
    assert EquationFor(d.(constant := constant, priority := priority), rightToLeft, a)
        == Some(Equation(e.key.(priority := priority), ConstantFor(constant, ConstantAttribute(e.key), rightToLeft)));
  }

  /** Setting a constraint's constant or priority gives the equations of the changed description, if and only if the
      priority does not cross `REQUIRED` (or there is nothing to constrain). */
  lemma ChangeIsRecompilation(d: Description, constant: Constant, priority: real, rightToLeft: bool)
    requires d.target.None? ==> d.to == 0
    ensures var es, fs := Compile(d, rightToLeft), Compile(d.(constant := constant, priority := priority), rightToLeft);
            && es.Some? && fs.Some? && |es.value| == |fs.value|
            && ((forall i :: 0 <= i < |es.value| ==> fs.value[i] == Recomputed(es.value[i], constant, priority, rightToLeft))
                <==> es.value == [] || priority == d.priority || (d.priority < 1000.0 && priority != 1000.0))
  {
    var d' := d.(constant := constant, priority := priority);
    CompileTotal(d, rightToLeft);
    CompileTotal(d', rightToLeft);
    var attributes := LayoutAttributes(d.from);
    var es, fs := Compile(d, rightToLeft).value, Compile(d', rightToLeft).value;
    forall i | 0 <= i < |es|
      ensures fs[i] == Recomputed(es[i], constant, priority, rightToLeft)
              <==> priority == d.priority || (d.priority < REQUIRED && priority != REQUIRED)
    {
      RecomputedEquation(d, constant, priority, rightToLeft, attributes[i]);
    }
    if es != [] {
      assert fs[0] == Recomputed(es[0], constant, priority, rightToLeft)
             <==> priority == d.priority || (d.priority < REQUIRED && priority != REQUIRED);
    }
  }
}
