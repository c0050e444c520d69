/** The product records the three product forms share: colour-size-quantity
    combinations, the per-colour property groups the server stores, and the
    two conversions between them (grouping on submit, flattening when a
    stored product is loaded into a form). */
module Catalog {
  import opened Text

  /** A number field as the form holds it: the text typed in, and the number
      the code reads from it (None for NaN). For the price and sale fields
      that reading is `parseFloat`, which skips leading white space and reads
      the longest numeric prefix; for the quantity box of a row it is the
      `Number` coercion that `isNaN` and `<` apply, which rejects trailing
      garbage and reads white-space-only text as 0. The two readings differ,
      so `parsed` is the one the field's own check uses. */
  datatype NumberInput = NumberInput(text: string, parsed: Option<real>)

  /** A quantity as the forms hold it: a whole number, NaN, or the raw text
      of the quantity box while a row is being edited. */
  datatype Quantity = Count(n: int) | NaN | Typed(input: NumberInput)

  /** `quantity === '' || isNaN(quantity) || quantity < 0` fails exactly
      for the quantities this predicate accepts. For raw text only the empty
      string is refused before coercion: text of white space alone passes,
      since `Number` reads it as 0. */
  predicate IsValidQuantity(q: Quantity)
  {
    match q
    case Count(n) => n >= 0
    case NaN => false
    case Typed(i) => i.text != "" && i.parsed.Some? && i.parsed.value >= 0.0
  }

  /** `parseInt(text, 10)` as a quantity. */
  function QuantityOf(text: string): (q: Quantity)
    ensures !q.Typed?
    ensures q.NaN? <==> ParseInt(text).None?
    ensures q.Count? ==> ParseInt(text) == Some(q.n)
  {
    match ParseInt(text)
    case None => NaN
    case Some(n) => Count(n)
  }

  /** `parseInt(quantity, 10)`: typed text is parsed; a whole number reads
      back as itself and NaN as NaN. */
  function Reparse(q: Quantity): (r: Quantity)
    ensures !r.Typed?
    ensures !q.Typed? ==> r == q
  {
    match q
    case Typed(i) => QuantityOf(i.text)
    case _ => q
  }

  /** Reading back a typed non-negative number gives that number. */
  lemma QuantityOfDecimal(n: nat)
    ensures QuantityOf(Decimal(n)) == Count(n)
    ensures IsValidQuantity(QuantityOf(Decimal(n)))
  {
    ParseIntOfDecimal(n);
  }

  /** One row of a form's combination table. The form without a colour
      control keeps the colour empty. */
  datatype Combination = Combination(color: string, size: string, quantity: Quantity)

  /** One `{ size, quantity }` entry of a stored property group. */
  datatype SizeEntry = SizeEntry(size: string, quantity: Quantity)

  /** One `{ color, sizes }` property group of a stored product. */
  datatype PropertyGroup = PropertyGroup(color: string, sizes: seq<SizeEntry>)

  /** The entry `{ size, quantity: parseInt(quantity, 10) }` a combination
      contributes to its group. */
  function Entry(c: Combination): SizeEntry
  {
    SizeEntry(c.size, Reparse(c.quantity))
  }

  /** A group as the server stores it: no quantity in it is raw text. */
  predicate IsStored(g: PropertyGroup)
  {
    forall k :: 0 <= k < |g.sizes| ==> !g.sizes[k].quantity.Typed?
  }

  function Entries(cs: seq<Combination>): (r: seq<SizeEntry>)
    ensures |r| == |cs|
    ensures forall i :: 0 <= i < |cs| ==> r[i] == Entry(cs[i])
  {
    seq(|cs|, i requires 0 <= i < |cs| => Entry(cs[i]))
  }

  /** The combinations of colour `color`, in their order. */
  function OfColor(cs: seq<Combination>, color: string): (r: seq<Combination>)
    ensures |r| <= |cs|
    ensures forall i :: 0 <= i < |r| ==> r[i].color == color
  {
    if cs == [] then []
    else OfColor(cs[..|cs| - 1], color) + (if cs[|cs| - 1].color == color then [cs[|cs| - 1]] else [])
  }

  /** A colour no combination has selects nothing. */
  lemma {:induction false} OfAbsentColor(cs: seq<Combination>, color: string)
    requires forall k :: 0 <= k < |cs| ==> cs[k].color != color
    ensures OfColor(cs, color) == []
  {
    if cs != [] {
      OfAbsentColor(cs[..|cs| - 1], color);
    }
  }

  /** The first group of colour `color`, if there is one. */
  function GroupIndex(gs: seq<PropertyGroup>, color: string): (r: Option<nat>)
    ensures r.Some? ==> r.value < |gs| && gs[r.value].color == color
    ensures r.Some? ==> forall j :: 0 <= j < r.value ==> gs[j].color != color
    ensures r.None? ==> forall j :: 0 <= j < |gs| ==> gs[j].color != color
  {
    if gs == [] then None
    else if gs[0].color == color then Some(0)
    else match GroupIndex(gs[1..], color)
      case None => None
      case Some(j) => Some(j + 1)
  }

  /** One step of the submit `reduce`: the combination's entry is pushed onto
      the group of its colour, which is created at the end when missing. */
  function AddToGroup(gs: seq<PropertyGroup>, c: Combination): seq<PropertyGroup>
  {
    match GroupIndex(gs, c.color)
    case Some(j) => gs[j := PropertyGroup(c.color, gs[j].sizes + [Entry(c)])]
    case None => gs + [PropertyGroup(c.color, [Entry(c)])]
  }

  /** The object the submit `reduce` builds, as the list of its own
      properties in the order they are created: one group per colour, in the
      order the colours first appear. `Object.values` lists them in another
      order when some colours are array indices (module `ObjectOrder`). */
  function GroupByColor(cs: seq<Combination>): seq<PropertyGroup>
  {
    if cs == [] then [] else AddToGroup(GroupByColor(cs[..|cs| - 1]), cs[|cs| - 1])
  }

  predicate DistinctColors(gs: seq<PropertyGroup>)
  {
    forall i, j :: 0 <= i < j < |gs| ==> gs[i].color != gs[j].color
  }

  /** Some group has colour `color`. */
  predicate HasColor(gs: seq<PropertyGroup>, color: string)
  {
    exists j :: 0 <= j < |gs| && gs[j].color == color
  }

  /** Each group holds exactly the entries of its colour's combinations, in
      their order, and none is empty. */
  predicate GroupsHoldTheirColor(gs: seq<PropertyGroup>, cs: seq<Combination>)
  {
    forall j :: 0 <= j < |gs| ==> |gs[j].sizes| > 0 && gs[j].sizes == Entries(OfColor(cs, gs[j].color))
  }

  /** What the grouping promises: one group per colour, no empty group, each
      group holding exactly its colour's entries in order, and a group for
      every combination. */
  predicate IsGroupingOf(gs: seq<PropertyGroup>, cs: seq<Combination>)
  {
    && DistinctColors(gs)
    && GroupsHoldTheirColor(gs, cs)
    && (forall k :: 0 <= k < |cs| ==> HasColor(gs, cs[k].color))
  }

  lemma OfColorSnoc(p: seq<Combination>, c: Combination, color: string)
    ensures OfColor(p + [c], color) == OfColor(p, color) + (if c.color == color then [c] else [])
  {
    assert (p + [c])[..|p|] == p;
  }

  lemma EntriesSnoc(s: seq<Combination>, c: Combination)
    ensures Entries(s + [c]) == Entries(s) + [Entry(c)]
  {
  }

  /** A grouping that keeps the colours of the groups before it, and has a
      group for the new combination's colour, covers the longer list. */
  lemma CoverageAfterStep(g0: seq<PropertyGroup>, g: seq<PropertyGroup>, p: seq<Combination>, c: Combination)
    requires |g| >= |g0|
    requires forall i :: 0 <= i < |g0| ==> g[i].color == g0[i].color
    requires forall k :: 0 <= k < |p| ==> HasColor(g0, p[k].color)
    requires HasColor(g, c.color)
    ensures forall k :: 0 <= k < |p + [c]| ==> HasColor(g, (p + [c])[k].color)
  {
    forall k | 0 <= k < |p + [c]| ensures HasColor(g, (p + [c])[k].color) {
      if k < |p| {
        assert (p + [c])[k] == p[k];
        assert HasColor(g0, p[k].color);
        var i :| 0 <= i < |g0| && g0[i].color == p[k].color;
        assert g[i].color == p[k].color;
      }
    }
  }

  lemma ExistingGroupHolds(g0: seq<PropertyGroup>, p: seq<Combination>, c: Combination, j: nat)
    requires DistinctColors(g0) && GroupsHoldTheirColor(g0, p)
    requires GroupIndex(g0, c.color) == Some(j)
    ensures GroupsHoldTheirColor(AddToGroup(g0, c), p + [c])
  {
    var cs := p + [c];
    var g := g0[j := PropertyGroup(c.color, g0[j].sizes + [Entry(c)])];
    assert AddToGroup(g0, c) == g;
    forall i | 0 <= i < |g|
      ensures |g[i].sizes| > 0 && g[i].sizes == Entries(OfColor(cs, g[i].color))
    {
      OfColorSnoc(p, c, g[i].color);
      if i == j {
        EntriesSnoc(OfColor(p, c.color), c);
      }
    }
  }

  /** The reducer step when the colour already has a group. */
  lemma AddToExistingGroup(g0: seq<PropertyGroup>, p: seq<Combination>, c: Combination, j: nat)
    requires IsGroupingOf(g0, p)
    requires GroupIndex(g0, c.color) == Some(j)
    ensures IsGroupingOf(AddToGroup(g0, c), p + [c])
  {
    var g := g0[j := PropertyGroup(c.color, g0[j].sizes + [Entry(c)])];
    assert AddToGroup(g0, c) == g;
    assert forall i :: 0 <= i < |g| ==> g[i].color == g0[i].color;
    assert DistinctColors(g);
    ExistingGroupHolds(g0, p, c, j);
    assert g[j].color == c.color;
    CoverageAfterStep(g0, g, p, c);
  }

  lemma NewGroupHolds(g0: seq<PropertyGroup>, p: seq<Combination>, c: Combination)
    requires GroupsHoldTheirColor(g0, p)
    requires forall k :: 0 <= k < |p| ==> p[k].color != c.color
    requires GroupIndex(g0, c.color).None?
    ensures GroupsHoldTheirColor(AddToGroup(g0, c), p + [c])
  {
    var cs := p + [c];
    var g := g0 + [PropertyGroup(c.color, [Entry(c)])];
    assert AddToGroup(g0, c) == g;
    OfAbsentColor(p, c.color);
    forall i | 0 <= i < |g|
      ensures |g[i].sizes| > 0 && g[i].sizes == Entries(OfColor(cs, g[i].color))
    {
      OfColorSnoc(p, c, g[i].color);
      if i == |g0| {
        EntriesSnoc([], c);
      }
    }
  }

  /** The reducer step when the colour is new: its group goes at the end. */
  lemma AddNewGroup(g0: seq<PropertyGroup>, p: seq<Combination>, c: Combination)
    requires IsGroupingOf(g0, p)
    requires GroupIndex(g0, c.color).None?
    ensures IsGroupingOf(AddToGroup(g0, c), p + [c])
  {
    var g := g0 + [PropertyGroup(c.color, [Entry(c)])];
    assert AddToGroup(g0, c) == g;
    forall k | 0 <= k < |p| ensures p[k].color != c.color {
      assert HasColor(g0, p[k].color);
    }
    assert DistinctColors(g);
    NewGroupHolds(g0, p, c);
    assert g[|g0|].color == c.color;
    CoverageAfterStep(g0, g, p, c);
  }

  /** Every combination lands in exactly the group of its colour, in order. */
  lemma {:induction false} GroupByColorGroups(cs: seq<Combination>)
    ensures IsGroupingOf(GroupByColor(cs), cs)
  {
    if cs != [] {
      var p, c := cs[..|cs| - 1], cs[|cs| - 1];
      assert cs == p + [c];
      GroupByColorGroups(p);
      var g0 := GroupByColor(p);
      match GroupIndex(g0, c.color)
      case Some(j) => AddToExistingGroup(g0, p, c, j);
      case None => AddNewGroup(g0, p, c);
    }
  }

  /** A grouping of combinations none of which has colour `color` has no
      group of that colour. */
  lemma NoGroupForAbsentColor(gs: seq<PropertyGroup>, cs: seq<Combination>, color: string)
    requires GroupsHoldTheirColor(gs, cs)
    requires forall k :: 0 <= k < |cs| ==> cs[k].color != color
    ensures GroupIndex(gs, color).None?
  {
    OfAbsentColor(cs, color);
    forall j | 0 <= j < |gs| ensures gs[j].color != color {
      assert |Entries(OfColor(cs, gs[j].color))| > 0;
    }
  }

  /** The combinations a group stands for, in its order. */
  function Expand(g: PropertyGroup): (r: seq<Combination>)
    ensures |r| == |g.sizes|
    ensures forall i :: 0 <= i < |r| ==> r[i].color == g.color
    ensures forall i :: 0 <= i < |r| ==> r[i].size == g.sizes[i].size && r[i].quantity == g.sizes[i].quantity
    ensures IsStored(g) ==> Entries(r) == g.sizes
  {
    seq(|g.sizes|, i requires 0 <= i < |g.sizes| => Combination(g.color, g.sizes[i].size, g.sizes[i].quantity))
  }

  /** The stored groups flattened into combinations: every size of the
      first group, then every size of the second, and so on. */
  function Flatten(gs: seq<PropertyGroup>): seq<Combination>
  {
    if gs == [] then [] else Flatten(gs[..|gs| - 1]) + Expand(gs[|gs| - 1])
  }

  /** Every flattened combination has the colour of some group. */
  lemma {:induction false} FlattenColors(gs: seq<PropertyGroup>, color: string)
    requires forall j :: 0 <= j < |gs| ==> gs[j].color != color
    ensures forall k :: 0 <= k < |Flatten(gs)| ==> Flatten(gs)[k].color != color
  {
    if gs != [] {
      FlattenColors(gs[..|gs| - 1], color);
    }
  }

  /** Grouping gives no group to a colour no combination has. */
  lemma GroupedAbsentColor(xs: seq<Combination>, color: string)
    requires forall k :: 0 <= k < |xs| ==> xs[k].color != color
    ensures GroupIndex(GroupByColor(xs), color).None?
  {
    GroupByColorGroups(xs);
    NoGroupForAbsentColor(GroupByColor(xs), xs, color);
  }

  lemma GroupByColorSnoc(p: seq<Combination>, c: Combination)
    ensures GroupByColor(p + [c]) == AddToGroup(GroupByColor(p), c)
  {
    assert (p + [c])[..|p|] == p;
  }

  /** Pushing onto the last group, when it is the only one of its colour. */
  lemma AddToLastGroup(g0: seq<PropertyGroup>, es: seq<SizeEntry>, y: Combination)
    requires GroupIndex(g0, y.color).None?
    ensures AddToGroup(g0 + [PropertyGroup(y.color, es)], y) == g0 + [PropertyGroup(y.color, es + [Entry(y)])]
  {
    var g1 := g0 + [PropertyGroup(y.color, es)];
    assert g1[|g0|].color == y.color;
    var r := GroupIndex(g1, y.color);
    assert r.Some?;
    assert r.value == |g0|;
  }

  /** Grouping a list that ends with a run of a colour not seen before adds
      one group for that run at the end. */
  lemma {:induction false} GroupAppendFreshColor(xs: seq<Combination>, ys: seq<Combination>, color: string)
    requires |ys| > 0
    requires forall k :: 0 <= k < |xs| ==> xs[k].color != color
    requires forall k :: 0 <= k < |ys| ==> ys[k].color == color
    ensures GroupByColor(xs + ys) == GroupByColor(xs) + [PropertyGroup(color, Entries(ys))]
    decreases |ys|
  {
    GroupedAbsentColor(xs, color);
    if |ys| > 1 {
      GroupAppendFreshColor(xs, ys[..|ys| - 1], color);
    }
    GroupAppendStep(xs, ys);
  }

  /** One step of the above: the last combination joins the trailing group
      of its colour, or opens it. */
  lemma {:induction false} GroupAppendStep(xs: seq<Combination>, ys: seq<Combination>)
    requires |ys| > 0
    requires GroupIndex(GroupByColor(xs), ys[|ys| - 1].color).None?
    requires |ys| > 1 ==>
      GroupByColor(xs + ys[..|ys| - 1]) == GroupByColor(xs) + [PropertyGroup(ys[|ys| - 1].color, Entries(ys[..|ys| - 1]))]
    ensures GroupByColor(xs + ys) == GroupByColor(xs) + [PropertyGroup(ys[|ys| - 1].color, Entries(ys))]
  {
    var zs, y := ys[..|ys| - 1], ys[|ys| - 1];
    var g0 := GroupByColor(xs);
    SplitLast(xs, ys);
    if |ys| == 1 {
      assert xs + zs == xs;
      OpenGroup(xs, y);
      assert Entries(ys) == [Entry(y)];
    } else {
      var es := Entries(zs);
      assert GroupByColor(xs + zs) == g0 + [PropertyGroup(y.color, es)];
      AddToLastGroup(g0, es, y);
      assert Entries(ys) == es + [Entry(y)];
    }
  }

  /** Grouping `xs + ys` is grouping all but the last combination and then
      pushing the last one. */
  lemma SplitLast(xs: seq<Combination>, ys: seq<Combination>)
    requires |ys| > 0
    ensures GroupByColor(xs + ys) == AddToGroup(GroupByColor(xs + ys[..|ys| - 1]), ys[|ys| - 1])
    ensures Entries(ys) == Entries(ys[..|ys| - 1]) + [Entry(ys[|ys| - 1])]
  {
    var zs, y := ys[..|ys| - 1], ys[|ys| - 1];
    assert ys == zs + [y];
    assert xs + ys == (xs + zs) + [y];
    GroupByColorSnoc(xs + zs, y);
    EntriesSnoc(zs, y);
  }

  /** A combination whose colour has no group opens a new last group. */
  lemma OpenGroup(xs: seq<Combination>, y: Combination)
    requires GroupIndex(GroupByColor(xs), y.color).None?
    ensures AddToGroup(GroupByColor(xs), y) == GroupByColor(xs) + [PropertyGroup(y.color, [Entry(y)])]
  {
  }

  /** Loading stored groups into a form and running the submit `reduce` on
      the rows unchanged rebuilds the same groups, in the same order, as long
      as the colours are distinct and no group is empty. */
  lemma {:induction false} GroupFlattenRoundTrip(gs: seq<PropertyGroup>)
    requires DistinctColors(gs)
    requires forall j :: 0 <= j < |gs| ==> |gs[j].sizes| > 0 && IsStored(gs[j])
    ensures GroupByColor(Flatten(gs)) == gs
  {
    if gs != [] {
      var init, g := gs[..|gs| - 1], gs[|gs| - 1];
      assert init + [g] == gs;
      assert forall j :: 0 <= j < |init| ==> init[j] == gs[j];
      assert forall j :: 0 <= j < |init| ==> init[j].color != g.color;
      GroupFlattenRoundTrip(init);
      FlattenColors(init, g.color);
      GroupAppendFreshColor(Flatten(init), Expand(g), g.color);
      assert Flatten(gs) == Flatten(init) + Expand(g);
      assert Entries(Expand(g)) == g.sizes;
    }
  }

  /** Every combination with its colour replaced by `color`. */
  function Recolor(cs: seq<Combination>, color: string): (r: seq<Combination>)
    ensures |r| == |cs|
    ensures forall i :: 0 <= i < |cs| ==> r[i] == cs[i].(color := color)
  {
    seq(|cs|, i requires 0 <= i < |cs| => cs[i].(color := color))
  }

  /** The properties every plain object inherits from `Object.prototype`.
      For such a colour `acc[color]` finds the inherited function (or, for
      `__proto__`, the prototype itself), so the group is never created and
      `acc[color].sizes.push` throws a `TypeError`. */
  const InheritedKeys: set<string> := {
    "constructor", "hasOwnProperty", "isPrototypeOf", "propertyIsEnumerable",
    "toLocaleString", "toString", "valueOf", "__proto__",
    "__defineGetter__", "__defineSetter__", "__lookupGetter__", "__lookupSetter__"}

  /** Some combination's colour names an inherited property. */
  predicate InheritsColor(cs: seq<Combination>)
  {
    exists k :: 0 <= k < |cs| && cs[k].color in InheritedKeys
  }

  lemma InheritsColorSnoc(cs: seq<Combination>, c: Combination)
    requires !InheritsColor(cs) && c.color !in InheritedKeys
    ensures !InheritsColor(cs + [c])
  {
    forall k | 0 <= k < |cs + [c]| ensures (cs + [c])[k].color !in InheritedKeys {
      if k < |cs| {
        assert (cs + [c])[k] == cs[k];
      }
    }
  }

  /** The submit `reduce`: the combinations pushed one at a time onto the
      group of their colour. It throws, written None, at the first colour
      that names an inherited property. */
  method GroupCombinations(cs: seq<Combination>) returns (groups: Option<seq<PropertyGroup>>)
    ensures groups.None? <==> InheritsColor(cs)
    ensures groups.Some? ==> groups.value == GroupByColor(cs) && IsGroupingOf(groups.value, cs)
  {
    var acc := [];
    var i := 0;
    while i < |cs|
      invariant 0 <= i <= |cs|
      invariant acc == GroupByColor(cs[..i])
      invariant !InheritsColor(cs[..i])
    {
      var c := cs[i];
      if c.color in InheritedKeys {
        assert cs[i] == c;
        return None;
      }
      InheritsColorSnoc(cs[..i], c);
      assert cs[..i + 1] == cs[..i] + [c];
      GroupByColorSnoc(cs[..i], c);
      acc := AddToGroup(acc, c);
      i := i + 1;
    }
    assert cs[..i] == cs;
    GroupByColorGroups(cs);
    groups := Some(acc);
  }

  /** Grouping under one constant colour gives a single group holding every
      combination's entry in order, or no group for no combinations. */
  lemma {:induction false} SingleColorGrouping(cs: seq<Combination>, color: string)
    ensures GroupByColor(Recolor(cs, color)) == if cs == [] then [] else [PropertyGroup(color, Entries(cs))]
  {
    var rs := Recolor(cs, color);
    if cs == [] {
      assert rs == [];
    } else {
      GroupAppendFreshColor([], rs, color);
      assert [] + rs == rs;
      RecolorKeepsEntries(cs, color);
    }
  }

  /** Recolouring leaves every entry as it was. */
  lemma RecolorKeepsEntries(cs: seq<Combination>, color: string)
    ensures Entries(Recolor(cs, color)) == Entries(cs)
  {
    var rs := Recolor(cs, color);
    forall k | 0 <= k < |cs| ensures Entries(rs)[k] == Entries(cs)[k] {
      assert rs[k] == cs[k].(color := color);
    }
  }
}
