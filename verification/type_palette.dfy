/**
  The type picker's delegate (`TypeLibraryPalette`) and its items
  (`TypeItem`). The primitive names and the constructor registry are
  inputs, in the order the source iterates them.
 */
module TypePalette {
  import opened Wrappers
  import opened Blocks
  import StringOrder

  datatype IconName = Code | Box

  datatype TypeItem =
    | Primitive(name: string)
    | Constructor(name: string, paramsCount: nat, description: string)

  const PrimitiveDescription: string := "Primitive type"

  function Name(item: TypeItem): (r: string) {
    item.name
  }

  function Description(item: TypeItem): (r: string) {
    match item
    case Primitive(_) => PrimitiveDescription
    case Constructor(_, _, d) => d
  }

  function Icon(item: TypeItem): (r: IconName) {
    match item
    case Primitive(_) => Code
    case Constructor(_, _, _) => Box
  }

  function Keywords(item: TypeItem): (r: seq<string>) {
    []
  }

  function Documentation(item: TypeItem): (r: Option<string>) {
    None
  }

  /** The block an item places (`TypeItem::to_block`). */
  function ToBlock(item: TypeItem): (r: BlockSpec) {
    match item
    case Primitive(n) => PrimitiveBlock(n)
    case Constructor(n, k, _) => ConstructorBlock(n, k)
  }

  /**
    The display data agree with the block: the block carries the item's
    name, a `Code` icon marks exactly the primitives, and a constructor's
    arity is carried over.
   */
  lemma ItemDisplayMatchesBlock(item: TypeItem)
    ensures ToBlock(item).name == Name(item)
    ensures Icon(item) == Code <==> ToBlock(item).PrimitiveBlock?
    ensures Icon(item) == Box <==> ToBlock(item).ConstructorBlock?
    ensures item.Constructor? ==> ToBlock(item).arity == item.paramsCount
    ensures item.Primitive? ==> Description(item) == PrimitiveDescription
    ensures item.Constructor? ==> Description(item) == item.description
    ensures Keywords(item) == [] && Documentation(item) == None
  {
  }

  /** Two items give the same block exactly when they differ at most in their description. */
  lemma ToBlockForgetsOnlyDescription(a: TypeItem, b: TypeItem)
    ensures ToBlock(a) == ToBlock(b) <==>
      (a.Primitive? && b.Primitive? && a.name == b.name) ||
      (a.Constructor? && b.Constructor? && a.name == b.name && a.paramsCount == b.paramsCount)
  {
  }

  /** An entry of the constructor registry (`get_all_type_constructors`). */
  datatype ConstructorInfo = ConstructorInfo(name: string, category: string, paramsCount: nat, description: string)

  function ItemOf(c: ConstructorInfo): (r: TypeItem) {
    Constructor(c.name, c.paramsCount, c.description)
  }

  /** A named group of items, as the palette lists them. */
  type Category = (string, seq<TypeItem>)

  datatype Palette = Palette(categories: seq<Category>, selectedItem: Option<TypeItem>, targetSlot: Option<SlotRef>)

  const PrimitivesCategory: string := "Primitives"

  /** One primitive item per name, in order. */
  function PrimitiveItems(names: seq<string>): (r: seq<TypeItem>)
    ensures |r| == |names|
    ensures forall i :: 0 <= i < |names| ==> r[i] == Primitive(names[i])
    decreases names
  {
    if names == [] then [] else [Primitive(names[0])] + PrimitiveItems(names[1..])
  }

  // ----- the reference: what a category holds -----

  /** The registry's entries of one category, as items, in registry order. */
  function ItemsIn(ctors: seq<ConstructorInfo>, cat: string): (r: seq<TypeItem>)
    decreases |ctors|
  {
    if |ctors| == 0 then []
    else
      var last := ctors[|ctors| - 1];
      ItemsIn(ctors[..|ctors| - 1], cat) + (if last.category == cat then [ItemOf(last)] else [])
  }

  function CategoryNames(ctors: seq<ConstructorInfo>): (r: set<string>) {
    set c | c in ctors :: c.category
  }

  function Keys(groups: seq<Category>): (r: set<string>) {
    set g | g in groups :: g.0
  }

  predicate DistinctKeys(groups: seq<Category>) {
    forall i, j :: 0 <= i < j < |groups| ==> groups[i].0 != groups[j].0
  }

  predicate StrictlySorted(groups: seq<Category>) {
    forall i, j :: 0 <= i < j < |groups| ==> StringOrder.Less(groups[i].0, groups[j].0)
  }

  /** The items filed under `k`, from the first group with that name. */
  function Lookup(groups: seq<Category>, k: string): (r: seq<TypeItem>)
    decreases groups
  {
    if |groups| == 0 then []
    else if groups[0].0 == k then groups[0].1
    else Lookup(groups[1..], k)
  }

  /** Total number of items over all groups. */
  function Total(groups: seq<Category>): (r: nat)
    decreases groups
  {
    if |groups| == 0 then 0 else |groups[0].1| + Total(groups[1..])
  }

  lemma KeysCons(g: Category, gs: seq<Category>)
    ensures Keys([g] + gs) == {g.0} + Keys(gs)
  {
    assert forall h :: h in [g] + gs <==> h == g || h in gs;
  }

  lemma DistinctCons(g: Category, gs: seq<Category>)
    ensures DistinctKeys([g] + gs) <==> g.0 !in Keys(gs) && DistinctKeys(gs)
  {
    if DistinctKeys([g] + gs) {
      DistinctConsSplits(g, gs);
    }
    if g.0 !in Keys(gs) && DistinctKeys(gs) {
      DistinctConsJoins(g, gs);
    }
  }

  lemma DistinctConsSplits(g: Category, gs: seq<Category>)
    requires DistinctKeys([g] + gs)
    ensures g.0 !in Keys(gs) && DistinctKeys(gs)
  {
    var s := [g] + gs;
    forall h | h in gs ensures h.0 != g.0 {
      var j :| 0 <= j < |gs| && gs[j] == h;
      assert s[0] == g && s[j + 1] == h;
      assert s[0].0 != s[j + 1].0;
    }
    forall i, j | 0 <= i < j < |gs| ensures gs[i].0 != gs[j].0 {
      assert gs[i] == s[i + 1] && gs[j] == s[j + 1];
    }
  }

  lemma DistinctConsJoins(g: Category, gs: seq<Category>)
    requires g.0 !in Keys(gs) && DistinctKeys(gs)
    ensures DistinctKeys([g] + gs)
  {
    var s := [g] + gs;
    forall i, j | 0 <= i < j < |s| ensures s[i].0 != s[j].0 {
      if i == 0 {
        assert s[j] in gs;
      } else {
        assert s[i] == gs[i - 1] && s[j] == gs[j - 1];
      }
    }
  }

  lemma SortedCons(g: Category, gs: seq<Category>)
    ensures StrictlySorted([g] + gs) <==>
      (forall h :: h in gs ==> StringOrder.Less(g.0, h.0)) && StrictlySorted(gs)
  {
    if StrictlySorted([g] + gs) {
      SortedConsSplits(g, gs);
    }
    if (forall h :: h in gs ==> StringOrder.Less(g.0, h.0)) && StrictlySorted(gs) {
      SortedConsJoins(g, gs);
    }
  }

  lemma SortedConsSplits(g: Category, gs: seq<Category>)
    requires StrictlySorted([g] + gs)
    ensures forall h :: h in gs ==> StringOrder.Less(g.0, h.0)
    ensures StrictlySorted(gs)
  {
    var s := [g] + gs;
    forall h | h in gs ensures StringOrder.Less(g.0, h.0) {
      var j :| 0 <= j < |gs| && gs[j] == h;
      assert s[0] == g && s[j + 1] == h;
      assert StringOrder.Less(s[0].0, s[j + 1].0);
    }
    forall i, j | 0 <= i < j < |gs| ensures StringOrder.Less(gs[i].0, gs[j].0) {
      assert gs[i] == s[i + 1] && gs[j] == s[j + 1];
      assert StringOrder.Less(s[i + 1].0, s[j + 1].0);
    }
  }

  lemma SortedConsJoins(g: Category, gs: seq<Category>)
    requires forall h :: h in gs ==> StringOrder.Less(g.0, h.0)
    requires StrictlySorted(gs)
    ensures StrictlySorted([g] + gs)
  {
    var s := [g] + gs;
    forall i, j | 0 <= i < j < |s| ensures StringOrder.Less(s[i].0, s[j].0) {
      if i == 0 {
        assert s[j] == gs[j - 1];
        assert s[j] in gs;
      } else {
        assert s[i] == gs[i - 1] && s[j] == gs[j - 1];
      }
    }
  }

  /** In groups with distinct names, looking a group's name up finds that group. */
  lemma {:induction false} LookupFindsMember(groups: seq<Category>, g: Category)
    requires DistinctKeys(groups)
    requires g in groups
    ensures Lookup(groups, g.0) == g.1
    decreases groups
  {
    assert groups == [groups[0]] + groups[1..];
    DistinctCons(groups[0], groups[1..]);
    if groups[0] != g {
      assert g in groups[1..];
      assert g.0 in Keys(groups[1..]);
      LookupFindsMember(groups[1..], g);
    }
  }

  lemma KeysOfPermutation(a: seq<Category>, b: seq<Category>)
    requires multiset(a) == multiset(b)
    ensures Keys(a) == Keys(b)
  {
    assert forall g :: g in a <==> g in multiset(a);
    assert forall g :: g in b <==> g in multiset(b);
  }

  // ----- the construction, as the source performs it -----

  /**
    Files the item under `cat`: appended to that category's group, or to a new
    group opened at the end when there is none yet. Groups stay in the order
    their categories were first seen.
   */
  function Push(groups: seq<Category>, cat: string, item: TypeItem): (r: seq<Category>)
    decreases groups
  {
    if |groups| == 0 then [(cat, [item])]
    else if groups[0].0 == cat then [(cat, groups[0].1 + [item])] + groups[1..]
    else [groups[0]] + Push(groups[1..], cat, item)
  }

  /** Pushing files the item under `cat` and changes no other group. */
  lemma {:induction false} PushFilesItem(groups: seq<Category>, cat: string, item: TypeItem)
    ensures Keys(Push(groups, cat, item)) == Keys(groups) + {cat}
    ensures forall k :: Lookup(Push(groups, cat, item), k)
                     == if k == cat then Lookup(groups, k) + [item] else Lookup(groups, k)
    ensures Total(Push(groups, cat, item)) == Total(groups) + 1
    decreases groups
  {
    var r := Push(groups, cat, item);
    if |groups| == 0 {
      KeysCons((cat, [item]), []);
    } else {
      assert groups == [groups[0]] + groups[1..];
      KeysCons(groups[0], groups[1..]);
      if groups[0].0 == cat {
        KeysCons((cat, groups[0].1 + [item]), groups[1..]);
        assert r[1..] == groups[1..];
      } else {
        PushFilesItem(groups[1..], cat, item);
        KeysCons(groups[0], Push(groups[1..], cat, item));
        assert r[1..] == Push(groups[1..], cat, item);
      }
    }
  }

  lemma {:induction false} PushKeepsKeysDistinct(groups: seq<Category>, cat: string, item: TypeItem)
    requires DistinctKeys(groups)
    ensures DistinctKeys(Push(groups, cat, item))
    decreases groups
  {
    if |groups| > 0 {
      assert groups == [groups[0]] + groups[1..];
      DistinctCons(groups[0], groups[1..]);
      if groups[0].0 == cat {
        var r := Push(groups, cat, item);
        assert r == [(cat, groups[0].1 + [item])] + groups[1..];
        DistinctCons((cat, groups[0].1 + [item]), groups[1..]);
      } else {
        PushKeepsKeysDistinct(groups[1..], cat, item);
        PushFilesItem(groups[1..], cat, item);
        DistinctCons(groups[0], Push(groups[1..], cat, item));
      }
    }
  }

  /** The grouping loop over the registry. */
  function GroupByCategory(ctors: seq<ConstructorInfo>): (r: seq<Category>)
    decreases |ctors|
  {
    if |ctors| == 0 then []
    else
      var last := ctors[|ctors| - 1];
      Push(GroupByCategory(ctors[..|ctors| - 1]), last.category, ItemOf(last))
  }

  /**
    The grouping has one group per category name of the registry, and the
    group of a name holds exactly the registry's entries of that category,
    in registry order.
   */
  lemma {:induction false} GroupByCategoryFilters(ctors: seq<ConstructorInfo>)
    ensures DistinctKeys(GroupByCategory(ctors))
    ensures Keys(GroupByCategory(ctors)) == CategoryNames(ctors)
    ensures forall k :: Lookup(GroupByCategory(ctors), k) == ItemsIn(ctors, k)
    ensures Total(GroupByCategory(ctors)) == |ctors|
    decreases |ctors|
  {
    if |ctors| > 0 {
      var init := ctors[..|ctors| - 1];
      var last := ctors[|ctors| - 1];
      GroupByCategoryFilters(init);
      PushFilesItem(GroupByCategory(init), last.category, ItemOf(last));
      PushKeepsKeysDistinct(GroupByCategory(init), last.category, ItemOf(last));
      assert ctors == init + [last];
      assert forall c :: c in ctors <==> c in init || c == last;
      assert CategoryNames(ctors) == CategoryNames(init) + {last.category};
    }
  }

  /** Inserts a group before the first group whose name sorts after it. */
  function InsertByKey(g: Category, sorted: seq<Category>): (r: seq<Category>)
    decreases sorted
  {
    if |sorted| == 0 || StringOrder.Less(g.0, sorted[0].0) then [g] + sorted
    else [sorted[0]] + InsertByKey(g, sorted[1..])
  }

  lemma {:induction false} InsertByKeyPermutes(g: Category, sorted: seq<Category>)
    ensures multiset(InsertByKey(g, sorted)) == multiset(sorted) + multiset{g}
    ensures Total(InsertByKey(g, sorted)) == Total(sorted) + |g.1|
    decreases sorted
  {
    if !(|sorted| == 0 || StringOrder.Less(g.0, sorted[0].0)) {
      InsertByKeyPermutes(g, sorted[1..]);
      assert sorted == [sorted[0]] + sorted[1..];
      var r := InsertByKey(g, sorted);
      assert r[1..] == InsertByKey(g, sorted[1..]);
    }
  }

  lemma {:induction false} InsertByKeyKeepsSorted(g: Category, sorted: seq<Category>)
    requires StrictlySorted(sorted)
    requires g.0 !in Keys(sorted)
    ensures StrictlySorted(InsertByKey(g, sorted))
    decreases sorted
  {
    if |sorted| == 0 || StringOrder.Less(g.0, sorted[0].0) {
      forall h | h in sorted ensures StringOrder.Less(g.0, h.0) {
        var j :| 0 <= j < |sorted| && sorted[j] == h;
        if j > 0 {
          StringOrder.LessTransitive(g.0, sorted[0].0, h.0);
        }
      }
      SortedCons(g, sorted);
    } else {
      var s0 := sorted[0];
      assert sorted == [s0] + sorted[1..];
      assert s0.0 != g.0 by { assert s0 in sorted; }
      StringOrder.LessConnected(g.0, s0.0);
      SortedCons(s0, sorted[1..]);
      KeysCons(s0, sorted[1..]);
      InsertByKeyKeepsSorted(g, sorted[1..]);
      InsertByKeyPermutes(g, sorted[1..]);
      var rest := InsertByKey(g, sorted[1..]);
      forall h | h in rest ensures StringOrder.Less(s0.0, h.0) {
        assert h in multiset(rest);
      }
      SortedCons(s0, rest);
    }
  }

  /**
    Orders the groups by name (insertion sort). Unlike Rust's stable
    `sort_by_key`, groups with equal names may change places; the grouping
    never produces two groups with one name.
   */
  function SortByKey(groups: seq<Category>): (r: seq<Category>)
    decreases groups
  {
    if |groups| == 0 then []
    else InsertByKey(groups[0], SortByKey(groups[1..]))
  }

  /** Sorting permutes the groups into strictly ascending name order. */
  lemma {:induction false} SortByKeySorts(groups: seq<Category>)
    requires DistinctKeys(groups)
    ensures multiset(SortByKey(groups)) == multiset(groups)
    ensures StrictlySorted(SortByKey(groups))
    ensures Total(SortByKey(groups)) == Total(groups)
    decreases groups
  {
    if |groups| > 0 {
      assert groups == [groups[0]] + groups[1..];
      DistinctCons(groups[0], groups[1..]);
      SortByKeySorts(groups[1..]);
      var tail := SortByKey(groups[1..]);
      KeysOfPermutation(tail, groups[1..]);
      InsertByKeyPermutes(groups[0], tail);
      InsertByKeyKeepsSorted(groups[0], tail);
    }
  }

  /** `TypeLibraryPalette::new`. */
  function New(primitives: seq<string>, ctors: seq<ConstructorInfo>, targetSlot: Option<SlotRef>): (r: Palette) {
    Palette([(PrimitivesCategory, PrimitiveItems(primitives))] + SortByKey(GroupByCategory(ctors)), None, targetSlot)
  }

  /**
    The palette lists "Primitives" first, one item per primitive name in
    order; after it come the registry's categories, each exactly once, in
    strictly ascending name order, each holding exactly its constructors in
    registry order, so every constructor is listed once.
   */
  lemma NewListsPrimitivesThenSortedCategories(primitives: seq<string>, ctors: seq<ConstructorInfo>, targetSlot: Option<SlotRef>)
    ensures var p := New(primitives, ctors, targetSlot);
      && |p.categories| >= 1
      && p.categories[0].0 == PrimitivesCategory
      && |p.categories[0].1| == |primitives|
      && (forall i :: 0 <= i < |primitives| ==> p.categories[0].1[i] == Primitive(primitives[i]))
      && StrictlySorted(p.categories[1..])
      && Keys(p.categories[1..]) == CategoryNames(ctors)
      && (forall i :: 1 <= i < |p.categories| ==> p.categories[i].1 == ItemsIn(ctors, p.categories[i].0))
      && Total(p.categories[1..]) == |ctors|
      && p.selectedItem == None && p.targetSlot == targetSlot
  {
    var p := New(primitives, ctors, targetSlot);
    var grouped := GroupByCategory(ctors);
    var sorted := SortByKey(grouped);
    assert p.categories[1..] == sorted;
    GroupByCategoryFilters(ctors);
    SortByKeySorts(grouped);
    KeysOfPermutation(sorted, grouped);
    forall i | 1 <= i < |p.categories| ensures p.categories[i].1 == ItemsIn(ctors, p.categories[i].0) {
      var g := p.categories[i];
      assert g == sorted[i - 1];
      assert g in multiset(grouped);
      LookupFindsMember(grouped, g);
    }
  }

  /** The categories the palette lists (`categories`). */
  function Categories(p: Palette): (r: seq<Category>) {
    p.categories
  }

  /** Remembers the chosen item (`confirm`). */
  function Confirm(p: Palette, item: TypeItem): (r: Palette)
    ensures r.selectedItem == Some(item)
    ensures r.categories == p.categories && r.targetSlot == p.targetSlot
  {
    p.(selectedItem := Some(item))
  }

  /** Hands out the chosen item once (`take_selected_item`). */
  function TakeSelectedItem(p: Palette): (r: (Option<TypeItem>, Palette))
    ensures r.0 == p.selectedItem
    ensures r.1.selectedItem == None
    ensures r.1.categories == p.categories && r.1.targetSlot == p.targetSlot
  {
    (p.selectedItem, p.(selectedItem := None))
  }

  /** The slot the picker was opened for (`target_slot`). */
  function TargetSlot(p: Palette): (r: Option<SlotRef>) {
    p.targetSlot
  }

  /** A confirmed item is handed out by the next take, and only by that one. */
  lemma ConfirmThenTakeOnce(p: Palette, item: TypeItem)
    ensures var (first, p1) := TakeSelectedItem(Confirm(p, item));
      && first == Some(item)
      && TakeSelectedItem(p1).0 == None
      && TargetSlot(p1) == TargetSlot(p)
      && Categories(p1) == Categories(p)
  {
  }

  /** Neither choosing nor taking an item changes the slot the picker was opened for. */
  lemma TargetSlotIsFixed(primitives: seq<string>, ctors: seq<ConstructorInfo>, slot: Option<SlotRef>, item: TypeItem)
    ensures TargetSlot(New(primitives, ctors, slot)) == slot
    ensures TargetSlot(Confirm(New(primitives, ctors, slot), item)) == slot
    ensures TargetSlot(TakeSelectedItem(Confirm(New(primitives, ctors, slot), item)).1) == slot
  {
  }

  /** An entry of the registry is among the items of its own category. */
  lemma {:induction false} ItemsInHoldsEntry(ctors: seq<ConstructorInfo>, j: nat)
    requires j < |ctors|
    ensures ItemOf(ctors[j]) in ItemsIn(ctors, ctors[j].category)
    decreases |ctors|
  {
    var init := ctors[..|ctors| - 1];
    if j < |ctors| - 1 {
      assert init[j] == ctors[j];
      ItemsInHoldsEntry(init, j);
    }
  }

  /** Every registry entry is listed, under the category it names. */
  lemma NewListsEveryConstructor(primitives: seq<string>, ctors: seq<ConstructorInfo>, targetSlot: Option<SlotRef>, j: nat)
    requires j < |ctors|
    ensures var cats := New(primitives, ctors, targetSlot).categories;
      exists i :: 1 <= i < |cats| && cats[i].0 == ctors[j].category && ItemOf(ctors[j]) in cats[i].1
  {
    var cats := New(primitives, ctors, targetSlot).categories;
    NewListsPrimitivesThenSortedCategories(primitives, ctors, targetSlot);
    assert ctors[j] in ctors;
    assert ctors[j].category in Keys(cats[1..]);
    var g :| g in cats[1..] && g.0 == ctors[j].category;
    var k :| 0 <= k < |cats[1..]| && cats[1..][k] == g;
    assert cats[k + 1] == g;
    ItemsInHoldsEntry(ctors, j);
  }
}
