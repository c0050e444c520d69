/** What the submit handlers of the add and edit pages send as `properties`:
    `Object.values` of the object the `reduce` builds. A plain object lists
    its array-index keys first, in ascending numeric order, and then its
    other keys in the order they were created; a colour named like an
    inherited property makes the `reduce` throw. */
module ObjectOrder {
  import opened Text
  import opened Lists
  import opened Catalog

  /** 2^32 - 1: the array indices are the integers below it. */
  const IndexBound: nat := 0x1_0000_0000 - 1

  /** Decimal digits without a leading zero (the text "0" aside). */
  predicate IsCanonicalDigits(key: string)
  {
    && |key| > 0
    && (forall i :: 0 <= i < |key| ==> IsDigit(key[i]))
    && (key[0] != '0' || |key| == 1)
  }

  /** A property key that is an array index: the canonical decimal text of
      an integer below 2^32 - 1. */
  predicate IsArrayIndex(key: string)
  {
    IsCanonicalDigits(key) && DigitsValue(key) < IndexBound
  }

  /** The number an array-index key stands for; 0 for any other key. */
  function IndexOf(key: string): nat
  {
    if IsArrayIndex(key) then DigitsValue(key) else 0
  }

  predicate HasIndexColor(g: PropertyGroup)
  {
    IsArrayIndex(g.color)
  }

  predicate HasNamedColor(g: PropertyGroup)
  {
    !IsArrayIndex(g.color)
  }

  /** Canonical digits with a leading non-zero digit stand for a positive
      number. */
  lemma {:induction false} LeadingDigitPositive(key: string)
    requires |key| > 0 && (forall i :: 0 <= i < |key| ==> IsDigit(key[i])) && key[0] != '0'
    ensures DigitsValue(key) > 0
    decreases |key|
  {
    if |key| > 1 {
      var p := key[..|key| - 1];
      assert p[0] == key[0];
      LeadingDigitPositive(p);
    }
  }

  /** Canonical digits are the decimal text of the number they stand for. */
  lemma {:induction false} CanonicalIsDecimal(key: string)
    requires IsCanonicalDigits(key)
    ensures Decimal(DigitsValue(key)) == key
    decreases |key|
  {
    var n := |key|;
    var d := DigitValue(key[n - 1]);
    if n == 1 {
      assert key == [key[0]];
      assert DigitChar(d) == key[0];
    } else {
      var p := key[..n - 1];
      assert p[0] == key[0];
      LeadingDigitPositive(p);
      CanonicalIsDecimal(p);
      var v := DigitsValue(p);
      assert DigitsValue(key) == v * 10 + d;
      assert DigitsValue(key) / 10 == v && DigitsValue(key) % 10 == d;
      assert DigitChar(d) == key[n - 1];
      assert key == p + [key[n - 1]];
    }
  }

  /** Two different array-index keys stand for different numbers, so the
      index keys of an object are listed in strictly ascending order. */
  lemma DistinctIndexKeys(a: string, b: string)
    requires IsArrayIndex(a) && IsArrayIndex(b) && a != b
    ensures IndexOf(a) != IndexOf(b)
  {
    CanonicalIsDecimal(a);
    CanonicalIsDecimal(b);
  }

  predicate Ascending(gs: seq<PropertyGroup>)
  {
    forall i, j :: 0 <= i < j < |gs| ==> IndexOf(gs[i].color) <= IndexOf(gs[j].color)
  }

  /** Puts a group before the first one whose index is not smaller. */
  function Insert(g: PropertyGroup, gs: seq<PropertyGroup>): (r: seq<PropertyGroup>)
    ensures multiset(r) == multiset(gs) + multiset{g}
  {
    if gs == [] || IndexOf(g.color) <= IndexOf(gs[0].color) then [g] + gs
    else
      assert gs == [gs[0]] + gs[1..];
      [gs[0]] + Insert(g, gs[1..])
  }

  /** The index-keyed groups in ascending numeric order of their keys. */
  function SortByIndex(gs: seq<PropertyGroup>): (r: seq<PropertyGroup>)
    ensures multiset(r) == multiset(gs)
  {
    if gs == [] then []
    else
      assert gs == [gs[0]] + gs[1..];
      Insert(gs[0], SortByIndex(gs[1..]))
  }

  /** Every group of `gs` has an index of at least `lo`. */
  predicate AllAtLeast(gs: seq<PropertyGroup>, lo: nat)
  {
    forall k :: 0 <= k < |gs| ==> lo <= IndexOf(gs[k].color)
  }

  lemma {:induction false} InsertAtLeast(g: PropertyGroup, gs: seq<PropertyGroup>, lo: nat)
    requires AllAtLeast(gs, lo) && lo <= IndexOf(g.color)
    ensures AllAtLeast(Insert(g, gs), lo)
  {
    if gs != [] && IndexOf(g.color) > IndexOf(gs[0].color) {
      InsertAtLeast(g, gs[1..], lo);
    }
  }

  lemma ConsAscending(x: PropertyGroup, r: seq<PropertyGroup>)
    requires Ascending(r) && AllAtLeast(r, IndexOf(x.color))
    ensures Ascending([x] + r)
  {
    var s := [x] + r;
    forall i, j | 0 <= i < j < |s| ensures IndexOf(s[i].color) <= IndexOf(s[j].color) {
      assert s[j] == r[j - 1];
      if i > 0 {
        assert s[i] == r[i - 1];
      }
    }
  }

  lemma {:induction false} InsertAscending(g: PropertyGroup, gs: seq<PropertyGroup>)
    requires Ascending(gs)
    ensures Ascending(Insert(g, gs))
  {
    if gs == [] || IndexOf(g.color) <= IndexOf(gs[0].color) {
      ConsAscending(g, gs);
    } else {
      var t := gs[1..];
      assert Ascending(t) && AllAtLeast(t, IndexOf(gs[0].color)) by {
        forall k | 0 <= k < |t| ensures t[k] == gs[k + 1] {
        }
      }
      InsertAscending(g, t);
      InsertAtLeast(g, t, IndexOf(gs[0].color));
      ConsAscending(gs[0], Insert(g, t));
    }
  }

  lemma {:induction false} SortAscending(gs: seq<PropertyGroup>)
    ensures Ascending(SortByIndex(gs))
    decreases |gs|
  {
    if gs != [] {
      SortAscending(gs[1..]);
      InsertAscending(gs[0], SortByIndex(gs[1..]));
    }
  }

  /** Sorting a list already in ascending order leaves it as it is. */
  lemma {:induction false} SortOfAscending(gs: seq<PropertyGroup>)
    requires Ascending(gs)
    ensures SortByIndex(gs) == gs
    decreases |gs|
  {
    if gs != [] {
      var t := gs[1..];
      assert Ascending(t) by {
        forall i, j | 0 <= i < j < |t| ensures IndexOf(t[i].color) <= IndexOf(t[j].color) {
          assert t[i] == gs[i + 1] && t[j] == gs[j + 1];
        }
      }
      SortOfAscending(t);
      assert gs == [gs[0]] + t;
    }
  }

  /** `Object.values` of the object whose own properties, in creation order,
      are `gs`: the array-index keys in ascending numeric order, then the
      other keys in creation order. */
  function ObjectValues(gs: seq<PropertyGroup>): seq<PropertyGroup>
  {
    SortByIndex(Filter(gs, HasIndexColor)) + Filter(gs, HasNamedColor)
  }

  /** The sorted index groups all carry index colours. */
  lemma SortedAreIndexGroups(gs: seq<PropertyGroup>)
    ensures forall x :: x in SortByIndex(Filter(gs, HasIndexColor)) ==> HasIndexColor(x)
  {
    var f := Filter(gs, HasIndexColor);
    forall x | x in SortByIndex(f) ensures HasIndexColor(x) {
      assert x in multiset(SortByIndex(f));
      assert x in f;
      var k :| 0 <= k < |f| && f[k] == x;
    }
  }

  /** What `Object.values` promises: the same groups; every index-keyed
      group before every other group, in ascending order of index; and the
      other groups in their creation order. */
  lemma ObjectValuesOrder(gs: seq<PropertyGroup>)
    ensures multiset(ObjectValues(gs)) == multiset(gs)
    ensures forall i, j :: 0 <= i < j < |ObjectValues(gs)| && HasIndexColor(ObjectValues(gs)[j]) ==>
      HasIndexColor(ObjectValues(gs)[i])
      && IndexOf(ObjectValues(gs)[i].color) <= IndexOf(ObjectValues(gs)[j].color)
    ensures Filter(ObjectValues(gs), HasNamedColor) == Filter(gs, HasNamedColor)
  {
    FilterPartition(gs, HasIndexColor, HasNamedColor);
    IndexGroupsFirst(gs);
    NamedGroupsInOrder(gs);
  }

  lemma IndexGroupsFirst(gs: seq<PropertyGroup>)
    ensures forall i, j :: 0 <= i < j < |ObjectValues(gs)| && HasIndexColor(ObjectValues(gs)[j]) ==>
      HasIndexColor(ObjectValues(gs)[i])
      && IndexOf(ObjectValues(gs)[i].color) <= IndexOf(ObjectValues(gs)[j].color)
  {
    var s, n := SortByIndex(Filter(gs, HasIndexColor)), Filter(gs, HasNamedColor);
    var r := s + n;
    assert ObjectValues(gs) == r;
    SortedAreIndexGroups(gs);
    SortAscending(Filter(gs, HasIndexColor));
    assert forall k :: 0 <= k < |n| ==> HasNamedColor(n[k]);
    forall i, j | 0 <= i < j < |r| && HasIndexColor(r[j])
      ensures HasIndexColor(r[i]) && IndexOf(r[i].color) <= IndexOf(r[j].color)
    {
      assert r[i] == s[i] && r[j] == s[j];
      assert s[i] in s;
    }
  }

  lemma NamedGroupsInOrder(gs: seq<PropertyGroup>)
    ensures Filter(ObjectValues(gs), HasNamedColor) == Filter(gs, HasNamedColor)
  {
    var s, n := SortByIndex(Filter(gs, HasIndexColor)), Filter(gs, HasNamedColor);
    SortedAreIndexGroups(gs);
    FilterAppend(s, n, HasNamedColor);
    FilterNone(s, HasNamedColor);
    FilterKeepsAll(n, HasNamedColor);
    assert [] + n == n;
  }

  /** Listing the values of an object built from listed values changes
      nothing: the groups a submit sent are already in this order. */
  lemma ObjectValuesIdempotent(gs: seq<PropertyGroup>)
    ensures ObjectValues(ObjectValues(gs)) == ObjectValues(gs)
  {
    var s, n := SortByIndex(Filter(gs, HasIndexColor)), Filter(gs, HasNamedColor);
    SortedAreIndexGroups(gs);
    SortAscending(Filter(gs, HasIndexColor));
    FilterAppend(s, n, HasIndexColor);
    FilterAppend(s, n, HasNamedColor);
    FilterKeepsAll(s, HasIndexColor);
    FilterNone(n, HasIndexColor);
    FilterNone(s, HasNamedColor);
    FilterKeepsAll(n, HasNamedColor);
    assert Filter(s + n, HasIndexColor) == s;
    assert Filter(s + n, HasNamedColor) == n;
    SortOfAscending(s);
  }

  /** Without array-index colours the values come in creation order. */
  lemma NamedColorsKeepOrder(gs: seq<PropertyGroup>)
    requires forall j :: 0 <= j < |gs| ==> !IsArrayIndex(gs[j].color)
    ensures ObjectValues(gs) == gs
  {
    FilterNone(gs, HasIndexColor);
    FilterKeepsAll(gs, HasNamedColor);
  }

  /** The `properties` a submit sends for the rows `cs`: None when the
      `reduce` throws. */
  function SentProperties(cs: seq<Combination>): (r: Option<seq<PropertyGroup>>)
    ensures r.None? <==> InheritsColor(cs)
  {
    if InheritsColor(cs) then None else Some(ObjectValues(GroupByColor(cs)))
  }

  /** Reordering a grouping keeps it a grouping of the same rows. */
  lemma PermutedGrouping(gs: seq<PropertyGroup>, r: seq<PropertyGroup>, cs: seq<Combination>)
    requires IsGroupingOf(gs, cs) && multiset(r) == multiset(gs)
    ensures IsGroupingOf(r, cs)
  {
    forall j | 0 <= j < |r| ensures |r[j].sizes| > 0 && r[j].sizes == Entries(OfColor(cs, r[j].color)) {
      assert r[j] in multiset(gs);
    }
    forall k | 0 <= k < |cs| ensures HasColor(r, cs[k].color) {
      var j :| 0 <= j < |gs| && gs[j].color == cs[k].color;
      assert gs[j] in multiset(r);
      var i :| 0 <= i < |r| && r[i] == gs[j];
    }
    forall i, j | 0 <= i < j < |r| ensures r[i].color != r[j].color {
      assert r[i] in multiset(gs) && r[j] in multiset(gs);
      var a :| 0 <= a < |gs| && gs[a] == r[i];
      var b :| 0 <= b < |gs| && gs[b] == r[j];
      if a == b {
        TwiceInList(r, i, j);
        NoDuplicatesMultiplicity(gs, r[i]) by {
          assert NoDuplicates(gs) by {
            forall x, y | 0 <= x < y < |gs| ensures gs[x] != gs[y] {
              assert gs[x].color != gs[y].color;
            }
          }
        }
      }
    }
  }

  /** An element at two positions of a list occurs at least twice in it. */
  lemma TwiceInList(r: seq<PropertyGroup>, i: nat, j: nat)
    requires i < j < |r| && r[i] == r[j]
    ensures multiset(r)[r[i]] >= 2
  {
    assert r == r[..j] + r[j..];
    assert r[i] in r[..j];
    assert r[j..] == [r[j]] + r[j + 1..];
  }

  /** Whatever the key order, the groups sent are a grouping of the rows:
      distinct colours, no empty group, each group holding exactly its
      colour's entries in row order, and a group for every row. */
  lemma SentGroupsAreGrouping(cs: seq<Combination>)
    requires !InheritsColor(cs)
    ensures IsGroupingOf(SentProperties(cs).value, cs)
  {
    GroupByColorGroups(cs);
    ObjectValuesOrder(GroupByColor(cs));
    PermutedGrouping(GroupByColor(cs), ObjectValues(GroupByColor(cs)), cs);
  }

  /** Rows coloured "2" and then "1" are grouped in that order by the
      `reduce`, but sent with the "1" group first. */
  lemma IndexColorsSentAscending()
    ensures
      var cs := [Combination("2", "S", Count(1)), Combination("1", "M", Count(2))];
      var g2, g1 := PropertyGroup("2", [SizeEntry("S", Count(1))]), PropertyGroup("1", [SizeEntry("M", Count(2))]);
      GroupByColor(cs) == [g2, g1] && SentProperties(cs) == Some([g1, g2])
  {
    var cs := [Combination("2", "S", Count(1)), Combination("1", "M", Count(2))];
    var g2, g1 := PropertyGroup("2", [SizeEntry("S", Count(1))]), PropertyGroup("1", [SizeEntry("M", Count(2))]);
    TwoColorsGrouped(cs[0], cs[1]);
    assert Entry(cs[0]) == SizeEntry("S", Count(1)) && Entry(cs[1]) == SizeEntry("M", Count(2));
    assert !InheritsColor(cs) by {
      assert "2" !in InheritedKeys && "1" !in InheritedKeys;
    }
    TwoIndexColorsSorted(g2, g1);
  }

  /** The `reduce` over two rows of different colours. */
  lemma TwoColorsGrouped(a: Combination, b: Combination)
    requires a.color != b.color
    ensures GroupByColor([a, b]) == [PropertyGroup(a.color, [Entry(a)]), PropertyGroup(b.color, [Entry(b)])]
  {
    var ga := PropertyGroup(a.color, [Entry(a)]);
    assert [a, b][..1] == [a] && [a][..0] == [];
    assert GroupByColor([a]) == AddToGroup([], a) == [ga];
    assert [ga][1..] == [];
    assert GroupIndex([ga], b.color).None?;
  }

  /** Two groups keyed "2" and "1" are listed "1" first. */
  lemma TwoIndexColorsSorted(g2: PropertyGroup, g1: PropertyGroup)
    requires g2.color == "2" && g1.color == "1"
    ensures ObjectValues([g2, g1]) == [g1, g2]
  {
    SmallIndexKeys();
    var both := [g2, g1];
    FilterKeepsAll(both, HasIndexColor);
    FilterNone(both, HasNamedColor);
    assert both[1..] == [g1] && [g1][1..] == [];
    assert SortByIndex([g1]) == Insert(g1, []) == [g1];
    assert Insert(g2, []) == [g2];
    assert Insert(g2, [g1]) == [g1] + Insert(g2, []);
    assert SortByIndex(both) == Insert(g2, [g1]);
  }

  /** The keys "2" and "1" are the array indices 2 and 1. */
  lemma SmallIndexKeys()
    ensures IsArrayIndex("2") && IndexOf("2") == 2
    ensures IsArrayIndex("1") && IndexOf("1") == 1
  {
    assert "2"[..0] == [] && "1"[..0] == [];
    assert DigitsValue("2") == 2 && DigitsValue("1") == 1;
  }

  /** Loading stored groups into the edit page and submitting the rows
      unchanged sends the stored groups in `Object.values` order; groups
      that a submit sent are already in that order, so they come back
      exactly. */
  lemma {:induction false} SentRoundTrip(gs: seq<PropertyGroup>)
    requires DistinctColors(gs)
    requires forall j :: 0 <= j < |gs| ==> |gs[j].sizes| > 0 && IsStored(gs[j]) && gs[j].color !in InheritedKeys
    ensures SentProperties(Flatten(gs)) == Some(ObjectValues(gs))
    ensures gs == ObjectValues(gs) ==> SentProperties(Flatten(gs)) == Some(gs)
  {
    GroupFlattenRoundTrip(gs);
    forall key | key in InheritedKeys
      ensures forall k :: 0 <= k < |Flatten(gs)| ==> Flatten(gs)[k].color != key
    {
      FlattenColors(gs, key);
    }
  }
}
