/**
 The flattened form of `use` items: one entry per imported item, keyed by
 (rooted, path, leaf), each carrying the property groups (visibility and
 docs) of the `use` items it came from, grouped by configs.
 */
module Flattened {
  import opened Common
  import Order
  import Tree

  /** The last part of a flattened import: `*`, or a name kept or renamed. */
  datatype UsedItemLeaf = Wildcard | Plain(name: string, usage: NameUse)

  /** Derived `Ord` of `UsedItemLeaf`: `Wildcard` first, then by name, then by usage. */
  function LeafLt(a: UsedItemLeaf, b: UsedItemLeaf): bool {
    match (a, b)
    case (Wildcard, Plain(_, _)) => true
    case (Plain(n1, u1), Plain(n2, u2)) => Order.StrLt(n1, n2) || (n1 == n2 && NameUseLt(u1, u2))
    case _ => false
  }

  /**
   `UsedItemLeaf::is_subsumed_by`: `leaf` can be dropped in favour of `parent`.
   A wildcard subsumes a plain use and a rename to `_`; a plain use subsumes
   a rename of the same name to `_`.
   */
  predicate LeafSubsumedBy(leaf: UsedItemLeaf, parent: UsedItemLeaf) {
    match parent
    case Wildcard =>
      leaf.Plain? && (leaf.usage.Used? || leaf.usage.alias == "_")
    case Plain(name1, usage1) =>
      && usage1.Used? && leaf.Plain? && leaf.usage.Renamed?
      && name1 == leaf.name && leaf.usage.alias == "_"
  }

  /** Who subsumes whom, stated per kind of parent. */
  lemma LeafSubsumption(leaf: UsedItemLeaf, parent: UsedItemLeaf)
    ensures parent.Wildcard? ==> (LeafSubsumedBy(leaf, parent) <==> leaf.Plain? && (leaf.usage == Used || leaf.usage == Renamed("_")))
    ensures parent.Plain? && parent.usage == Used ==> (LeafSubsumedBy(leaf, parent) <==> leaf == Plain(parent.name, Renamed("_")))
    ensures parent.Plain? && parent.usage.Renamed? ==> !LeafSubsumedBy(leaf, parent)
    ensures leaf.Wildcard? ==> !LeafSubsumedBy(leaf, parent)
    ensures !LeafSubsumedBy(leaf, leaf)
  {
  }

  /**
   A subsuming leaf always sorts strictly before the leaf it subsumes, which is
   why `Wildcard` is declared first and `Used` before `Renamed`.
   */
  lemma SubsumerSortsFirst(leaf: UsedItemLeaf, parent: UsedItemLeaf)
    requires LeafSubsumedBy(leaf, parent)
    ensures LeafLt(parent, leaf)
    ensures !LeafSubsumedBy(parent, leaf)
  {
  }

  /** One complete flattened import. */
  datatype SingleUsedItem = SingleUsedItem(rooted: Rooted, path: seq<string>, leaf: UsedItemLeaf)

  /** `SingleUsedItem::is_subsumed_by`: same root and prefix, and the leaf is subsumed. */
  predicate ItemSubsumedBy(item: SingleUsedItem, parent: SingleUsedItem) {
    item.rooted == parent.rooted && item.path == parent.path && LeafSubsumedBy(item.leaf, parent.leaf)
  }

  lemma ItemSubsumption(item: SingleUsedItem, parent: SingleUsedItem)
    ensures ItemSubsumedBy(item, parent) ==> item.rooted == parent.rooted && item.path == parent.path
    ensures ItemSubsumedBy(item, parent) <==>
      item.(leaf := parent.leaf) == parent && LeafSubsumedBy(item.leaf, parent.leaf)
    ensures !ItemSubsumedBy(item, item)
  {
  }

  /** How public a visibility is: `This < Super < In < Crate < Public`. */
  function Publicity(v: Visibility): nat {
    match v
    case This => 0
    case Super => 1
    case In(_) => 2
    case Crate => 3
    case Public => 4
  }

  /** `merge_visibilities`: the more public visibility wins; an absent one is ignored. */
  function MergeVisibilities(vis1: Option<Visibility>, vis2: Option<Visibility>): (r: Option<Visibility>)
    ensures vis1.None? ==> r == vis2
    ensures vis2.None? ==> r == vis1
    ensures r == vis1 || r == vis2
    ensures vis1.Some? && vis2.Some? ==>
      r.Some? && Publicity(r.value) == Max(Publicity(vis1.value), Publicity(vis2.value))
    ensures vis1.Some? && vis2.Some? && Publicity(vis1.value) != Publicity(vis2.value) ==>
      r == (if Publicity(vis1.value) < Publicity(vis2.value) then vis2 else vis1)
    ensures vis1.Some? && vis2.Some? && vis1.value.In? && vis2.value.In? ==>
      r == (if |vis1.value.path| < |vis2.value.path| then vis1 else vis2)
  {
    match (vis1, vis2)
    case (None, vis) => vis
    case (vis, None) => vis
    case (Some(v1), Some(v2)) => Some(
      if v1.This? then v2
      else if v2.This? then v1
      else if v1.Super? then v2
      else if v2.Super? then v1
      else if v1.In? && v2.In? then (if |v1.path| < |v2.path| then v1 else v2)
      else if v1.In? then v2
      else if v2.In? then v1
      else if v1.Crate? then v2
      else if v2.Crate? then v1
      else Public)
  }

  /**
   The properties attached to one (item, configs) pair. How `DocsList::combine`
   joins docs is not part of this model: the group keeps every docs list it
   was merged with, in merge order.
   */
  datatype PropertiesGroup = PropertiesGroup(visibility: Option<Visibility>, docs: seq<DocsList>)

  const DefaultGroup: PropertiesGroup := PropertiesGroup(None, [])

  /** `UsedItemPropertiesGroup::merge`. */
  function GroupMerge(g: PropertiesGroup, visibility: Option<Visibility>, docs: seq<DocsList>): (r: PropertiesGroup)
    ensures |r.docs| == |g.docs| + |docs|
    ensures r.docs[..|g.docs|] == g.docs && r.docs[|g.docs|..] == docs
    ensures r.visibility == MergeVisibilities(g.visibility, visibility)
  {
    PropertiesGroup(MergeVisibilities(g.visibility, visibility), g.docs + docs)
  }

  type Groups = map<ConfigsList, PropertiesGroup>

  /** If the unconditional (empty-configs) group exists, it is the only group. */
  predicate SingleUnconditional(groups: Groups) {
    EmptyConfigs in groups ==> groups.Keys == {EmptyConfigs}
  }

  /** The rank of an optional visibility; absent ranks below every present one. */
  function OptPublicity(v: Option<Visibility>): int {
    if v.None? then -1 else Publicity(v.value)
  }

  function Max(a: int, b: int): int { if a < b then b else a }

  /** Fold the groups named by `keys`, in order, into `acc`. */
  function FoldGroups(keys: seq<ConfigsList>, groups: Groups, acc: PropertiesGroup): PropertiesGroup
    requires forall k :: k in keys ==> k in groups
    decreases |keys|
  {
    if |keys| == 0 then acc
    else FoldGroups(keys[1..], groups, GroupMerge(acc, groups[keys[0]].visibility, groups[keys[0]].docs))
  }

  /** The highest publicity among the groups named by `keys`. */
  function MaxPublicity(keys: seq<ConfigsList>, groups: Groups): int
    requires forall k :: k in keys ==> k in groups
    decreases |keys|
  {
    if |keys| == 0 then -1 else Max(OptPublicity(groups[keys[0]].visibility), MaxPublicity(keys[1..], groups))
  }

  /** The docs lists of the groups named by `keys`, in that order. */
  function AllDocs(keys: seq<ConfigsList>, groups: Groups): seq<DocsList>
    requires forall k :: k in keys ==> k in groups
    decreases |keys|
  {
    if |keys| == 0 then [] else groups[keys[0]].docs + AllDocs(keys[1..], groups)
  }

  /** Folding appends every group's docs lists in key order and lets the most public visibility win. */
  lemma {:induction false} FoldGroupsMerges(keys: seq<ConfigsList>, groups: Groups, acc: PropertiesGroup)
    requires forall k :: k in keys ==> k in groups
    ensures |FoldGroups(keys, groups, acc).docs| >= |acc.docs|
    ensures FoldGroups(keys, groups, acc).docs[..|acc.docs|] == acc.docs
    ensures FoldGroups(keys, groups, acc).docs == acc.docs + AllDocs(keys, groups)
    ensures OptPublicity(FoldGroups(keys, groups, acc).visibility) == Max(OptPublicity(acc.visibility), MaxPublicity(keys, groups))
    decreases |keys|
  {
    if |keys| > 0 {
      var g := groups[keys[0]];
      var acc' := GroupMerge(acc, g.visibility, g.docs);
      FoldGroupsMerges(keys[1..], groups, acc');
      assert acc'.docs[..|acc.docs|] == acc.docs;
      assert acc'.docs + AllDocs(keys[1..], groups) == acc.docs + AllDocs(keys, groups);
    }
  }

  /**
   `add_properties`: merge the item's properties into the group for its
   configs, except that an existing unconditional group absorbs everything,
   and an unconditional item folds all existing groups (in key order) into a
   new unconditional group.
   */
  function AddProperties(groups: Groups, item: Tree.UseItem): Groups {
    if EmptyConfigs in groups then
      groups[EmptyConfigs := GroupMerge(groups[EmptyConfigs], item.visibility, [item.docs])]
    else if item.configs.IsEmpty() then
      ConfigsLtStrictTotal();
      var merged := FoldGroups(Order.SortedKeys(groups.Keys, ConfigsLt), groups, DefaultGroup);
      map[EmptyConfigs := GroupMerge(merged, item.visibility, [item.docs])]
    else
      var g := if item.configs in groups then groups[item.configs] else DefaultGroup;
      groups[item.configs := GroupMerge(g, item.visibility, [item.docs])]
  }

  /**
   The shape of `add_properties`: the unconditional group, once present, is
   the only one; an unconditional item leaves only it; a conditional item
   touches only its own configs' group. The group that changes holds the
   item's docs after its own, and the merged visibility.
   */
  lemma AddPropertiesShape(groups: Groups, item: Tree.UseItem)
    ensures var r := AddProperties(groups, item);
      && (SingleUnconditional(groups) ==> SingleUnconditional(r))
      && (item.configs.IsEmpty() && SingleUnconditional(groups) ==> r.Keys == {EmptyConfigs})
      && (EmptyConfigs in groups ==> r.Keys == groups.Keys)
      && (EmptyConfigs in groups ==>
            && r[EmptyConfigs].docs == groups[EmptyConfigs].docs + [item.docs]
            && r[EmptyConfigs].visibility == MergeVisibilities(groups[EmptyConfigs].visibility, item.visibility))
      && (EmptyConfigs !in groups && !item.configs.IsEmpty() ==>
            && r.Keys == groups.Keys + {item.configs}
            && (forall k :: k in groups && k != item.configs ==> r[k] == groups[k])
            && var g := if item.configs in groups then groups[item.configs] else DefaultGroup;
               && r[item.configs].docs == g.docs + [item.docs]
               && r[item.configs].visibility == MergeVisibilities(g.visibility, item.visibility))
  {
  }

  /** The highest publicity over all groups. */
  function GroupsPublicity(groups: Groups): int {
    ConfigsLtStrictTotal();
    MaxPublicity(Order.SortedKeys(groups.Keys, ConfigsLt), groups)
  }

  /** Every group's docs lists, group by group in key order. */
  function AllGroupDocs(groups: Groups): seq<DocsList> {
    ConfigsLtStrictTotal();
    AllDocs(Order.SortedKeys(groups.Keys, ConfigsLt), groups)
  }

  lemma {:induction false} MaxPublicityBound(keys: seq<ConfigsList>, groups: Groups, k: ConfigsList)
    requires forall x :: x in keys ==> x in groups
    requires k in keys
    ensures OptPublicity(groups[k].visibility) <= MaxPublicity(keys, groups)
    decreases |keys|
  {
    if keys[0] != k {
      MaxPublicityBound(keys[1..], groups, k);
    }
  }

  /**
   An unconditional item collapses every group into one whose visibility is
   the most public of all of them and of the item, and whose docs start with
   all the old docs (in key order) and end with the item's docs.
   */
  lemma UnconditionalCollapse(groups: Groups, item: Tree.UseItem)
    requires EmptyConfigs !in groups && item.configs.IsEmpty()
    ensures var g := AddProperties(groups, item)[EmptyConfigs];
      && OptPublicity(g.visibility) == Max(GroupsPublicity(groups), OptPublicity(item.visibility))
      && (forall k :: k in groups ==> OptPublicity(groups[k].visibility) <= OptPublicity(g.visibility))
      && g.docs[|g.docs| - 1] == item.docs
      && g.docs == AllGroupDocs(groups) + [item.docs]
  {
    ConfigsLtStrictTotal();
    var keys := Order.SortedKeys(groups.Keys, ConfigsLt);
    var merged := FoldGroups(keys, groups, DefaultGroup);
    CollapseUnfold(groups, item, keys, merged);
    FoldGroupsMerges(keys, groups, DefaultGroup);
    forall k | k in groups ensures OptPublicity(groups[k].visibility) <= MaxPublicity(keys, groups) {
      MaxPublicityBound(keys, groups, k);
    }
    MergeLast(merged, item.visibility, item.docs);
  }

  /** An unconditional item over groups without an unconditional one: the fold of all groups, then the item. */
  lemma CollapseUnfold(groups: Groups, item: Tree.UseItem, keys: seq<ConfigsList>, merged: PropertiesGroup)
    requires EmptyConfigs !in groups && item.configs.IsEmpty()
    requires Order.StrictTotalOrder(ConfigsLt)
    requires keys == Order.SortedKeys(groups.Keys, ConfigsLt)
    requires merged == FoldGroups(keys, groups, DefaultGroup)
    ensures AddProperties(groups, item)[EmptyConfigs] == GroupMerge(merged, item.visibility, [item.docs])
    ensures GroupsPublicity(groups) == MaxPublicity(keys, groups)
    ensures AllGroupDocs(groups) == AllDocs(keys, groups)
  {
  }

  /** Merging one more docs list puts it last, and the more public visibility wins. */
  lemma MergeLast(g: PropertiesGroup, visibility: Option<Visibility>, docs: DocsList)
    ensures var r := GroupMerge(g, visibility, [docs]);
      && r.docs[|r.docs| - 1] == docs
      && OptPublicity(r.visibility) == Max(OptPublicity(g.visibility), OptPublicity(visibility))
  {
  }

  /** `PathChain`: the path to a node, as a linked list from the node back to the root. */
  datatype PathChain = PathChain(prev: Option<PathChain>, ident: string)

  function Depth(c: PathChain): nat {
    match c.prev
    case None => 1
    case Some(p) => 1 + Depth(p)
  }

  /** `PathChain::to_list`: the identifiers from the root down to this node. */
  function ToList(c: PathChain): (r: seq<string>)
    ensures |r| == Depth(c)
    ensures r[|r| - 1] == c.ident
    ensures c.prev.Some? ==> r[..|r| - 1] == ToList(c.prev.value)
  {
    match c.prev
    case None => [c.ident]
    case Some(p) => ToList(p) + [c.ident]
  }

  /** Build the chain for a non-empty path (root first). */
  function FromList(s: seq<string>): PathChain
    requires |s| > 0
    decreases |s|
  {
    if |s| == 1 then PathChain(None, s[0]) else PathChain(Some(FromList(s[..|s| - 1])), s[|s| - 1])
  }

  lemma {:induction false} ToListFromList(s: seq<string>)
    requires |s| > 0
    ensures ToList(FromList(s)) == s
    decreases |s|
  {
    if |s| > 1 {
      ToListFromList(s[..|s| - 1]);
    }
  }

  function RootedOf(rooted: bool): Rooted {
    if rooted then Rooted else Unrooted
  }

  /** `NormalizedUsedItems::items`. */
  type Normalized = map<SingleUsedItem, Groups>

  /** The property groups recorded so far for `key`. */
  function GroupsOf(items: Normalized, key: SingleUsedItem): Groups {
    if key in items then items[key] else map[]
  }

  /** Which entries one step of flattening touches. */
  datatype Selection =
    | Entry(key: SingleUsedItem)
    | Below(rooted: Rooted, p: seq<string>, b: Tree.Branches)
    | BelowVia(rooted: Rooted, p: seq<string>, b: Tree.Branches, keys: seq<string>)
    | InTree(useItem: Tree.UseItem)
    | InTreeVia(useItem: Tree.UseItem, roots: seq<Tree.TreeRoot>)
    | NoEntry
    | Either(left: Selection, right: Selection)

  predicate Selects(sel: Selection, x: SingleUsedItem) {
    match sel
    case Entry(key) => x == key
    case Below(rooted, p, b) => Lists(rooted, p, b, x)
    case BelowVia(rooted, p, b, keys) => ListsVia(rooted, p, b, keys, x)
    case InTree(useItem) => TreeLists(useItem, x)
    case InTreeVia(useItem, roots) => TreeListsVia(useItem, roots, x)
    case NoEntry => false
    case Either(left, right) => Selects(left, x) || Selects(right, x)
  }

  /**
   `r` is `items` after `add_properties` of `useItem` was applied exactly once
   to every entry selected by `sel`, creating missing entries; every other
   entry is untouched and nothing else is created.
   */
  ghost predicate Adds(items: Normalized, r: Normalized, useItem: Tree.UseItem, sel: Selection) {
    && (forall x :: x in r <==> x in items || Selects(sel, x))
    && (forall x :: x in items && !Selects(sel, x) ==> r[x] == items[x])
    && (forall x :: Selects(sel, x) ==> r[x] == AddProperties(GroupsOf(items, x), useItem))
  }

  /** Two additions over disjoint selections make one addition over their union. */
  lemma AddsCompose(items: Normalized, mid: Normalized, r: Normalized, useItem: Tree.UseItem, p: Selection, q: Selection, both: Selection)
    requires Adds(items, mid, useItem, p) && Adds(mid, r, useItem, q)
    requires forall x :: Selects(q, x) ==> !Selects(p, x)
    requires forall x :: Selects(both, x) <==> Selects(p, x) || Selects(q, x)
    ensures Adds(items, r, useItem, both)
  {
    forall x | Selects(q, x) ensures GroupsOf(mid, x) == GroupsOf(items, x) {
    }
  }

  /** `items.entry(item).or_default()` followed by `add_properties`. */
  function AddEntry(items: Normalized, key: SingleUsedItem, useItem: Tree.UseItem): (r: Normalized)
    ensures Adds(items, r, useItem, Entry(key))
  {
    items[key := AddProperties(GroupsOf(items, key), useItem)]
  }

  /** The whole imported path of an entry: the prefix, plus the name for a plain leaf. */
  function FullPath(x: SingleUsedItem): seq<string> {
    match x.leaf
    case Wildcard => x.path
    case Plain(name, _) => x.path + [name]
  }

  /** The trie leaf an entry stands for. */
  function LeafOf(x: SingleUsedItem): Tree.Leaf {
    match x.leaf
    case Wildcard => Tree.WildcardLeaf
    case Plain(_, usage) => Tree.UsedLeaf(usage)
  }

  /**
   The trie `b`, found at full path `p`, lists entry `x`: the entry's full path
   extends `p`, and the trie records the entry's leaf at the remainder.
   */
  predicate Lists(rooted: Rooted, p: seq<string>, b: Tree.Branches, x: SingleUsedItem) {
    && x.rooted == rooted
    && |p| <= |FullPath(x)|
    && FullPath(x)[..|p|] == p
    && Tree.HasLeaf(b, FullPath(x)[|p|..], LeafOf(x))
  }

  /** As `Lists`, restricted to entries below one of the children named in `keys`. */
  predicate ListsVia(rooted: Rooted, p: seq<string>, b: Tree.Branches, keys: seq<string>, x: SingleUsedItem) {
    && |p| < |FullPath(x)|
    && FullPath(x)[|p|] in keys
    && Lists(rooted, p, b, x)
  }

  /** One level of `Lists`: the node's own wildcard, its own usage, or something below a child. */
  lemma ListsLevel(rooted: Rooted, p: seq<string>, b: Tree.Branches, x: SingleUsedItem)
    requires |p| > 0
    ensures Lists(rooted, p, b, x) <==>
      || (b.wildcard && x == SingleUsedItem(rooted, p, Wildcard))
      || (b.used.Some? && x == SingleUsedItem(rooted, p[..|p| - 1], Plain(p[|p| - 1], b.used.value)))
      || (|p| < |FullPath(x)| && FullPath(x)[|p|] in b.children && Lists(rooted, p + [FullPath(x)[|p|]], b.children[FullPath(x)[|p|]], x))
  {
    var f := FullPath(x);
    if x.rooted == rooted && |p| <= |f| && f[..|p|] == p {
      if |f| == |p| {
        assert f[|p|..] == [];
        assert f == p;
        if x.leaf.Plain? {
          assert x.path == f[..|f| - 1];
        }
      } else {
        var k := f[|p|];
        assert f[|p|..][0] == k && f[|p|..][1..] == f[|p| + 1..];
        assert f[..|p| + 1] == p + [k];
      }
    } else if |p| < |f| {
      var k := f[|p|];
      if f[..|p| + 1] == p + [k] {
        assert f[..|p|] == (p + [k])[..|p|];
      }
    }
  }

  /** `NormalizedUsedItems::add_branches`: add one entry per wildcard and usage in the trie. */
  function AddBranches(items: Normalized, rooted: Rooted, prefix: PathChain, useItem: Tree.UseItem, b: Tree.Branches): (r: Normalized)
    ensures Adds(items, r, useItem, Below(rooted, ToList(prefix), b))
    decreases b, 1
  {
    var p := ToList(prefix);
    var path := match prefix.prev case None => [] case Some(c) => ToList(c);
    var items1 := if b.wildcard then AddEntry(items, SingleUsedItem(rooted, p, Wildcard), useItem) else items;
    var items2 := if b.used.Some? then AddEntry(items1, SingleUsedItem(rooted, path, Plain(prefix.ident, AsRef(b.used.value))), useItem) else items1;
    Order.StrLtStrictTotal();
    var keys := Order.SortedKeys(b.children.Keys, Order.StrLt);
    Order.StrictlySortedAllDistinct(Order.StrLt, keys);
    var r := AddChildren(items2, rooted, prefix, useItem, b, keys);
    AddBranchesCorrect(items, rooted, prefix, useItem, b, keys, items1, items2, r);
    r
  }

  /** The entries `add_branches` makes for the node itself: its wildcard, then its own usage. */
  function OwnWildcard(rooted: Rooted, prefix: PathChain, b: Tree.Branches): Selection {
    if b.wildcard then Entry(SingleUsedItem(rooted, ToList(prefix), Wildcard)) else NoEntry
  }

  function OwnUsage(rooted: Rooted, prefix: PathChain, b: Tree.Branches): Selection {
    var path := match prefix.prev case None => [] case Some(c) => ToList(c);
    if b.used.Some? then Entry(SingleUsedItem(rooted, path, Plain(prefix.ident, AsRef(b.used.value)))) else NoEntry
  }

  /** The node's own entries: its wildcard and its usage, both with full path `ToList(prefix)`. */
  lemma OwnEntries(rooted: Rooted, prefix: PathChain, b: Tree.Branches, x: SingleUsedItem)
    ensures var p := ToList(prefix);
      && (Selects(Either(OwnWildcard(rooted, prefix, b), OwnUsage(rooted, prefix, b)), x) <==>
            || (b.wildcard && x == SingleUsedItem(rooted, p, Wildcard))
            || (b.used.Some? && x == SingleUsedItem(rooted, p[..|p| - 1], Plain(p[|p| - 1], b.used.value))))
      && (Selects(OwnUsage(rooted, prefix, b), x) ==> !Selects(OwnWildcard(rooted, prefix, b), x))
      && (Selects(Either(OwnWildcard(rooted, prefix, b), OwnUsage(rooted, prefix, b)), x) ==> FullPath(x) == p)
  {
    var p := ToList(prefix);
    var path := match prefix.prev case None => [] case Some(c) => ToList(c);
    assert path == p[..|p| - 1];
    if b.used.Some? {
      assert AsRef(b.used.value) == b.used.value;
    }
  }

  /** The entries below the children of a node, one child at a time. */
  lemma ViaEntries(rooted: Rooted, p: seq<string>, b: Tree.Branches, keys: seq<string>, x: SingleUsedItem)
    requires forall k :: k in b.children <==> k in keys
    ensures ListsVia(rooted, p, b, keys, x) <==>
      |p| < |FullPath(x)| && FullPath(x)[|p|] in b.children && Lists(rooted, p + [FullPath(x)[|p|]], b.children[FullPath(x)[|p|]], x)
  {
    var f := FullPath(x);
    if |p| < |f| && f[|p|] in b.children {
      ListsChild(rooted, p, b, f[|p|], x);
    }
  }

  /** One level of `Lists`, split into the node's own entries and the disjoint entries below its children. */
  lemma BelowSplit(rooted: Rooted, prefix: PathChain, b: Tree.Branches, keys: seq<string>, x: SingleUsedItem)
    requires forall k :: k in b.children <==> k in keys
    ensures var w := OwnWildcard(rooted, prefix, b); var u := OwnUsage(rooted, prefix, b);
      && (Selects(Below(rooted, ToList(prefix), b), x) <==> Selects(Either(w, u), x) || Selects(BelowVia(rooted, ToList(prefix), b, keys), x))
      && (Selects(u, x) ==> !Selects(w, x))
      && (Selects(BelowVia(rooted, ToList(prefix), b, keys), x) ==> !Selects(Either(w, u), x))
  {
    var p := ToList(prefix);
    ListsLevel(rooted, p, b, x);
    OwnEntries(rooted, prefix, b, x);
    ViaEntries(rooted, p, b, keys, x);
  }

  lemma AddBranchesCorrect(items: Normalized, rooted: Rooted, prefix: PathChain, useItem: Tree.UseItem, b: Tree.Branches,
                           keys: seq<string>, items1: Normalized, items2: Normalized, r: Normalized)
    requires forall k :: k in b.children <==> k in keys
    requires items1 == if b.wildcard then AddEntry(items, SingleUsedItem(rooted, ToList(prefix), Wildcard), useItem) else items
    requires var path := match prefix.prev case None => [] case Some(c) => ToList(c);
      items2 == if b.used.Some? then AddEntry(items1, SingleUsedItem(rooted, path, Plain(prefix.ident, AsRef(b.used.value))), useItem) else items1
    requires Adds(items2, r, useItem, BelowVia(rooted, ToList(prefix), b, keys))
    ensures Adds(items, r, useItem, Below(rooted, ToList(prefix), b))
  {
    var own := Either(OwnWildcard(rooted, prefix, b), OwnUsage(rooted, prefix, b));
    var below := Below(rooted, ToList(prefix), b);
    var via := BelowVia(rooted, ToList(prefix), b, keys);
    OwnAdds(items, rooted, prefix, useItem, b, items1, items2);
    BelowSplitAll(rooted, prefix, b, keys, own, below, via);
    AddsCompose(items, items2, r, useItem, own, via, below);
  }

  /** The node's own wildcard, then its own usage, add exactly the node's own entries. */
  lemma OwnAdds(items: Normalized, rooted: Rooted, prefix: PathChain, useItem: Tree.UseItem, b: Tree.Branches, items1: Normalized, items2: Normalized)
    requires items1 == if b.wildcard then AddEntry(items, SingleUsedItem(rooted, ToList(prefix), Wildcard), useItem) else items
    requires var path := match prefix.prev case None => [] case Some(c) => ToList(c);
      items2 == if b.used.Some? then AddEntry(items1, SingleUsedItem(rooted, path, Plain(prefix.ident, AsRef(b.used.value))), useItem) else items1
    ensures Adds(items, items2, useItem, Either(OwnWildcard(rooted, prefix, b), OwnUsage(rooted, prefix, b)))
  {
    var w := OwnWildcard(rooted, prefix, b);
    var u := OwnUsage(rooted, prefix, b);
    assert Adds(items, items1, useItem, w);
    assert Adds(items1, items2, useItem, u);
    forall x ensures (Selects(u, x) ==> !Selects(w, x)) {
      OwnEntries(rooted, prefix, b, x);
    }
    AddsCompose(items, items1, items2, useItem, w, u, Either(w, u));
  }

  /** `BelowSplit` for every entry at once, over named selections. */
  lemma BelowSplitAll(rooted: Rooted, prefix: PathChain, b: Tree.Branches, keys: seq<string>, own: Selection, below: Selection, via: Selection)
    requires forall k :: k in b.children <==> k in keys
    requires own == Either(OwnWildcard(rooted, prefix, b), OwnUsage(rooted, prefix, b))
    requires below == Below(rooted, ToList(prefix), b) && via == BelowVia(rooted, ToList(prefix), b, keys)
    ensures forall x :: Selects(via, x) ==> !Selects(own, x)
    ensures forall x :: Selects(below, x) <==> Selects(own, x) || Selects(via, x)
  {
    forall x ensures (Selects(below, x) <==> Selects(own, x) || Selects(via, x)) && (Selects(via, x) ==> !Selects(own, x)) {
      BelowSplit(rooted, prefix, b, keys, x);
    }
  }

  /** The loop over `branches.children` in `add_branches`, in key order. */
  function AddChildren(items: Normalized, rooted: Rooted, prefix: PathChain, useItem: Tree.UseItem, b: Tree.Branches, keys: seq<string>): (r: Normalized)
    requires forall k :: k in keys ==> k in b.children
    requires forall i, j :: 0 <= i < j < |keys| ==> keys[i] != keys[j]
    ensures Adds(items, r, useItem, BelowVia(rooted, ToList(prefix), b, keys))
    decreases b, 0, |keys|
  {
    if |keys| == 0 then items
    else
      var child := PathChain(Some(prefix), keys[0]);
      DistinctTail(b, keys);
      var items' := AddBranches(items, rooted, child, useItem, b.children[keys[0]]);
      var r := AddChildren(items', rooted, prefix, useItem, b, keys[1..]);
      AddChildrenStep(items, rooted, prefix, useItem, b, keys, items', r);
      r
  }

  /** Distinct keys of children: the first is a child, the rest are distinct keys of children that differ from it. */
  lemma DistinctTail(b: Tree.Branches, keys: seq<string>)
    requires |keys| > 0
    requires forall k :: k in keys ==> k in b.children
    requires forall i, j :: 0 <= i < j < |keys| ==> keys[i] != keys[j]
    ensures keys[0] in b.children
    ensures forall k :: k in keys[1..] ==> k in b.children
    ensures forall i, j :: 0 <= i < j < |keys[1..]| ==> keys[1..][i] != keys[1..][j]
    ensures forall i :: 1 <= i < |keys| ==> keys[i] != keys[0]
  {
    forall i, j | 0 <= i < j < |keys[1..]| ensures keys[1..][i] != keys[1..][j] {
      assert keys[1..][i] == keys[i + 1] && keys[1..][j] == keys[j + 1];
    }
  }

  lemma AddChildrenStep(items: Normalized, rooted: Rooted, prefix: PathChain, useItem: Tree.UseItem, b: Tree.Branches,
                        keys: seq<string>, items': Normalized, r: Normalized)
    requires |keys| > 0 && keys[0] in b.children
    requires forall i :: 1 <= i < |keys| ==> keys[i] != keys[0]
    requires Adds(items, items', useItem, Below(rooted, ToList(prefix) + [keys[0]], b.children[keys[0]]))
    requires Adds(items', r, useItem, BelowVia(rooted, ToList(prefix), b, keys[1..]))
    ensures Adds(items, r, useItem, BelowVia(rooted, ToList(prefix), b, keys))
  {
    var p := ToList(prefix);
    var k0 := keys[0];
    var first := Below(rooted, p + [k0], b.children[k0]);
    var rest := BelowVia(rooted, p, b, keys[1..]);
    var all := BelowVia(rooted, p, b, keys);
    forall x ensures (Selects(all, x) <==> Selects(first, x) || Selects(rest, x)) && (Selects(rest, x) ==> !Selects(first, x)) {
      ListsViaSplit(rooted, p, b, keys, x);
    }
    AddsCompose(items, items', r, useItem, first, rest, all);
  }

  /** The entries a child's trie lists are those of the parent whose path continues with the child's key. */
  lemma ListsChild(rooted: Rooted, p: seq<string>, b: Tree.Branches, k: string, x: SingleUsedItem)
    requires k in b.children
    ensures Lists(rooted, p + [k], b.children[k], x) <==>
      |p| < |FullPath(x)| && FullPath(x)[|p|] == k && Lists(rooted, p, b, x)
  {
    var f := FullPath(x);
    if |p| < |f| {
      assert f[|p|..][0] == f[|p|] && f[|p|..][1..] == f[|p| + 1..];
      assert f[..|p| + 1] == f[..|p|] + [f[|p|]];
      if f[..|p| + 1] == p + [k] {
        assert f[..|p|] == (p + [k])[..|p|];
      }
    }
  }

  /** Peeling the first child off a `ListsVia`: the entries below it, and the disjoint rest. */
  lemma ListsViaSplit(rooted: Rooted, p: seq<string>, b: Tree.Branches, keys: seq<string>, x: SingleUsedItem)
    requires |keys| > 0 && keys[0] in b.children
    requires forall i :: 1 <= i < |keys| ==> keys[i] != keys[0]
    ensures ListsVia(rooted, p, b, keys, x) <==>
      Lists(rooted, p + [keys[0]], b.children[keys[0]], x) || ListsVia(rooted, p, b, keys[1..], x)
    ensures ListsVia(rooted, p, b, keys[1..], x) ==> !Lists(rooted, p + [keys[0]], b.children[keys[0]], x)
  {
    ListsChild(rooted, p, b, keys[0], x);
    var f := FullPath(x);
    if |p| < |f| && f[|p|] in keys && f[|p|] != keys[0] {
      assert f[|p|] in keys[1..];
    }
    if |p| < |f| && f[|p|] in keys[1..] {
      assert f[|p|] != keys[0];
    }
  }

  /** Which root's trie an entry belongs to. */
  function RootOf(x: SingleUsedItem): Tree.TreeRoot
    requires |FullPath(x)| > 0
  {
    Tree.TreeRoot(x.rooted == Rooted, FullPath(x)[0])
  }

  /** The `use` item lists `x`: the trie of the entry's root records it. */
  predicate TreeLists(useItem: Tree.UseItem, x: SingleUsedItem) {
    && |FullPath(x)| > 0
    && RootOf(x) in useItem.children
    && Lists(x.rooted, [FullPath(x)[0]], useItem.children[RootOf(x)], x)
  }

  /** As `TreeLists`, restricted to the roots in `roots`. */
  predicate TreeListsVia(useItem: Tree.UseItem, roots: seq<Tree.TreeRoot>, x: SingleUsedItem) {
    TreeLists(useItem, x) && RootOf(x) in roots
  }

  /** `NormalizedUsedItems::add_tree`: add every root's trie, in root order. */
  function AddTree(items: Normalized, useItem: Tree.UseItem): (r: Normalized)
    ensures Adds(items, r, useItem, InTree(useItem))
  {
    Tree.TreeRootLtStrictTotal();
    var roots := Order.SortedKeys(useItem.children.Keys, Tree.TreeRootLt);
    SortedRoots(useItem, roots);
    var r := AddRoots(items, useItem, roots);
    AddsSame(items, r, useItem, InTreeVia(useItem, roots), InTree(useItem));
    r
  }

  /** The roots in key order are the roots, each once, and together they select what the whole `use` item does. */
  lemma SortedRoots(useItem: Tree.UseItem, roots: seq<Tree.TreeRoot>)
    requires Order.StrictTotalOrder(Tree.TreeRootLt)
    requires forall root :: root in useItem.children.Keys <==> root in roots
    requires Order.StrictlySorted(Tree.TreeRootLt, roots)
    ensures forall root :: root in roots ==> root in useItem.children
    ensures forall i, j :: 0 <= i < j < |roots| ==> roots[i] != roots[j]
    ensures forall x :: Selects(InTreeVia(useItem, roots), x) <==> Selects(InTree(useItem), x)
  {
    forall i, j | 0 <= i < j < |roots| ensures roots[i] != roots[j] {
      Order.StrictlySortedDistinct(Tree.TreeRootLt, roots, i, j);
    }
  }

  /** Selections that select the same entries describe the same addition. */
  lemma AddsSame(items: Normalized, r: Normalized, useItem: Tree.UseItem, sel: Selection, sel': Selection)
    requires Adds(items, r, useItem, sel)
    requires forall x :: Selects(sel, x) <==> Selects(sel', x)
    ensures Adds(items, r, useItem, sel')
  {
  }

  /** The loop over the roots of a `use` item. */
  function AddRoots(items: Normalized, useItem: Tree.UseItem, roots: seq<Tree.TreeRoot>): (r: Normalized)
    requires forall root :: root in roots ==> root in useItem.children
    requires forall i, j :: 0 <= i < j < |roots| ==> roots[i] != roots[j]
    ensures Adds(items, r, useItem, InTreeVia(useItem, roots))
    decreases |roots|
  {
    if |roots| == 0 then items
    else
      var root := roots[0];
      var items' := AddBranches(items, RootedOf(root.rooted), PathChain(None, root.identifier), useItem, useItem.children[root]);
      var r := AddRoots(items', useItem, roots[1..]);
      AddRootsStep(items, useItem, roots, items', r);
      r
  }

  /** Peeling the first root off a `TreeListsVia`: the entries of its trie, and the disjoint rest. */
  lemma TreeListsViaSplit(useItem: Tree.UseItem, roots: seq<Tree.TreeRoot>, x: SingleUsedItem)
    requires |roots| > 0 && roots[0] in useItem.children
    requires forall i :: 1 <= i < |roots| ==> roots[i] != roots[0]
    ensures var root := roots[0]; var first := Lists(RootedOf(root.rooted), [root.identifier], useItem.children[root], x);
      && (TreeListsVia(useItem, roots, x) <==> first || TreeListsVia(useItem, roots[1..], x))
      && (TreeListsVia(useItem, roots[1..], x) ==> !first)
  {
    var root := roots[0];
    if Lists(RootedOf(root.rooted), [root.identifier], useItem.children[root], x) {
      assert FullPath(x)[..1] == [root.identifier];
      assert RootOf(x) == root;
    }
    if TreeLists(useItem, x) && RootOf(x) in roots && RootOf(x) != root {
      assert RootOf(x) in roots[1..];
    }
    if TreeLists(useItem, x) && RootOf(x) in roots[1..] {
      assert RootOf(x) != root;
    }
  }

  lemma AddRootsStep(items: Normalized, useItem: Tree.UseItem, roots: seq<Tree.TreeRoot>, items': Normalized, r: Normalized)
    requires |roots| > 0 && roots[0] in useItem.children
    requires forall i :: 1 <= i < |roots| ==> roots[i] != roots[0]
    requires Adds(items, items', useItem, Below(RootedOf(roots[0].rooted), [roots[0].identifier], useItem.children[roots[0]]))
    requires Adds(items', r, useItem, InTreeVia(useItem, roots[1..]))
    ensures Adds(items, r, useItem, InTreeVia(useItem, roots))
  {
    var root := roots[0];
    var first := Below(RootedOf(root.rooted), [root.identifier], useItem.children[root]);
    var rest := InTreeVia(useItem, roots[1..]);
    var all := InTreeVia(useItem, roots);
    forall x ensures (Selects(all, x) <==> Selects(first, x) || Selects(rest, x)) && (Selects(rest, x) ==> !Selects(first, x)) {
      TreeListsViaSplit(useItem, roots, x);
    }
    AddsCompose(items, items', r, useItem, first, rest, all);
  }
}
