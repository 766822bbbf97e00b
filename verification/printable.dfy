/**
 The printable form of imports: flattened items regrouped by their root
 segment into nested trees that print as `use a::{b, c::d, };`, and the
 sorted, blank-line-separated rendering of a whole set of `use` items.
 */
module Printable {
  import Order
  import Common
  import Flattened

  type NameUse = Common.NameUse

  /** What can happen at path `a::b`: just `a::b` (or `a::b as c`), or `a::b::{...}`. */
  datatype PrintableChild = PlainChild(usage: NameUse) | Subtree(tree: PrintableTree)

  /** The things that can appear inside `{}`: `self` usages, `*`, and named children. */
  datatype PrintableTree = PrintableTree(thisUsage: set<NameUse>, wildcard: bool, children: map<string, PrintableChild>)

  /** `PrintableTree::new`. */
  const NewTree: PrintableTree := PrintableTree({}, false, map[])

  /** The child at `name` imports `name` itself with usage `u` (`name` or `name::{self}`). */
  predicate SelfUsage(c: PrintableChild, u: NameUse) {
    match c
    case PlainChild(v) => u == v
    case Subtree(t) => u in t.thisUsage
  }

  /**
   The tree, found at some path `p`, imports `p + path` with `leaf`: a
   wildcard is the tree's own `*`; a plain leaf is a usage of the child it
   names; longer paths go through a subtree.
   */
  predicate HasItem(t: PrintableTree, path: seq<string>, leaf: Flattened.UsedItemLeaf)
    decreases t
  {
    if |path| == 0 then
      (match leaf
       case Wildcard => t.wildcard
       case Plain(name, u) => name in t.children && SelfUsage(t.children[name], u))
    else
      && path[0] in t.children
      && t.children[path[0]].Subtree?
      && HasItem(t.children[path[0]].tree, path[1..], leaf)
  }

  /** `PrintableChild::become_subtree`: `a::b` turns into `a::b::{self}`; a subtree stays as it is. */
  function BecomeSubtree(c: PrintableChild): (r: PrintableTree)
    ensures forall u :: u in r.thisUsage <==> SelfUsage(c, u)
    ensures c.Subtree? ==> r == c.tree
    ensures c.PlainChild? ==> !r.wildcard && |r.children| == 0
  {
    match c
    case Subtree(t) => t
    case PlainChild(u) => PrintableTree({u}, false, map[])
  }

  /** `PrintableChild::add_usage`: a repeated plain usage changes nothing; otherwise the usage joins `self`. */
  function AddUsage(c: PrintableChild, u: NameUse): (r: PrintableChild)
    ensures forall v :: SelfUsage(r, v) <==> SelfUsage(c, v) || v == u
    ensures c == PlainChild(u) ==> r == c
    ensures c != PlainChild(u) ==> r.Subtree? && r.tree.wildcard == BecomeSubtree(c).wildcard && r.tree.children == BecomeSubtree(c).children
  {
    if c == PlainChild(u) then c
    else
      var t := BecomeSubtree(c);
      Subtree(t.(thisUsage := t.thisUsage + {u}))
  }

  /** `PrintableTree::add_path`: descend (turning children into subtrees), then record the leaf. */
  function AddPath(t: PrintableTree, path: seq<string>, leaf: Flattened.UsedItemLeaf): (r: PrintableTree)
    ensures r.thisUsage == t.thisUsage
    ensures r.wildcard || |r.children| > 0
    decreases |path|
  {
    if |path| > 0 then
      var child := if path[0] in t.children then t.children[path[0]] else Subtree(NewTree);
      t.(children := t.children[path[0] := Subtree(AddPath(BecomeSubtree(child), path[1..], leaf))])
    else
      match leaf
      case Wildcard => t.(wildcard := true)
      case Plain(name, usage) =>
        t.(children := t.children[name := if name in t.children then AddUsage(t.children[name], usage) else PlainChild(usage)])
  }

  /** A tree without `*` and without children imports nothing. */
  lemma BareTreeHasNothing(t: PrintableTree, q: seq<string>, l: Flattened.UsedItemLeaf)
    requires !t.wildcard && |t.children| == 0
    ensures !HasItem(t, q, l)
  {
  }

  /** What a tree imports does not depend on its own `self` usages (those belong to its parent). */
  lemma HasItemIgnoresSelf(t: PrintableTree, t': PrintableTree, q: seq<string>, l: Flattened.UsedItemLeaf)
    requires t.wildcard == t'.wildcard && t.children == t'.children
    ensures HasItem(t, q, l) <==> HasItem(t', q, l)
  {
  }

  /** Turning a child into a subtree keeps everything the child imported below it. */
  lemma BecomeSubtreeItems(c: PrintableChild, q: seq<string>, l: Flattened.UsedItemLeaf)
    ensures HasItem(BecomeSubtree(c), q, l) <==> c.Subtree? && HasItem(c.tree, q, l)
  {
    if c.PlainChild? {
      BareTreeHasNothing(BecomeSubtree(c), q, l);
    }
  }

  /**
   The set meaning of `add_path`: afterwards the tree imports exactly what it
   imported before plus the added item. Nothing is lost when a plain child
   becomes a subtree.
   */
  lemma {:induction false} AddPathSemantics(t: PrintableTree, path: seq<string>, leaf: Flattened.UsedItemLeaf,
                                            q: seq<string>, l: Flattened.UsedItemLeaf)
    ensures HasItem(AddPath(t, path, leaf), q, l) <==> HasItem(t, q, l) || (q == path && l == leaf)
    decreases |path|
  {
    if |path| == 0 {
      AddLeafSemantics(t, path, leaf, q, l);
    } else {
      var child := if path[0] in t.children then t.children[path[0]] else Subtree(NewTree);
      if |q| > 0 && q[0] == path[0] {
        AddPathSemantics(BecomeSubtree(child), path[1..], leaf, q[1..], l);
      }
      AddPathDescends(t, path, leaf, q, l, child);
    }
  }

  /** `add_path` at the end of the path: the leaf joins the tree's own items. */
  lemma AddLeafSemantics(t: PrintableTree, path: seq<string>, leaf: Flattened.UsedItemLeaf, q: seq<string>, l: Flattened.UsedItemLeaf)
    requires |path| == 0
    ensures HasItem(AddPath(t, path, leaf), q, l) <==> HasItem(t, q, l) || (q == path && l == leaf)
  {
    if |q| > 0 && leaf.Plain? && q[0] == leaf.name && leaf.name in t.children {
      var c := t.children[leaf.name];
      var c' := AddUsage(c, leaf.usage);
      if c != PlainChild(leaf.usage) {
        if c.Subtree? {
          HasItemIgnoresSelf(c'.tree, c.tree, q[1..], l);
        } else {
          BareTreeHasNothing(c'.tree, q[1..], l);
        }
      }
    }
  }

  /** `add_path` one step down: given what the child's subtree gains, what the tree gains. */
  lemma AddPathDescends(t: PrintableTree, path: seq<string>, leaf: Flattened.UsedItemLeaf, q: seq<string>, l: Flattened.UsedItemLeaf, child: PrintableChild)
    requires |path| > 0
    requires child == if path[0] in t.children then t.children[path[0]] else Subtree(NewTree)
    requires |q| > 0 && q[0] == path[0] ==>
      (HasItem(AddPath(BecomeSubtree(child), path[1..], leaf), q[1..], l) <==>
        HasItem(BecomeSubtree(child), q[1..], l) || (q[1..] == path[1..] && l == leaf))
    ensures HasItem(AddPath(t, path, leaf), q, l) <==> HasItem(t, q, l) || (q == path && l == leaf)
  {
    var r := AddPath(t, path, leaf);
    var sub := AddPath(BecomeSubtree(child), path[1..], leaf);
    assert r.children[path[0]] == Subtree(sub);
    if |q| > 0 && q[0] == path[0] {
      BecomeSubtreeItems(child, q[1..], l);
      if path[0] !in t.children {
        BareTreeHasNothing(NewTree, q[1..], l);
      }
      assert q == path <==> q[1..] == path[1..];
    }
  }

  /** `PrintableTree::new_from_path`: a tree importing exactly one item. */
  function NewFromPath(path: seq<string>, leaf: Flattened.UsedItemLeaf): (r: PrintableTree)
    ensures forall q, l :: HasItem(r, q, l) <==> q == path && l == leaf
  {
    forall q, l ensures HasItem(AddPath(NewTree, path, leaf), q, l) <==> q == path && l == leaf {
      AddPathSemantics(NewTree, path, leaf, q, l);
      BareTreeHasNothing(NewTree, q, l);
    }
    AddPath(NewTree, path, leaf)
  }

  /** `name` or `name as alias` (the display of `PrintableItem::Plain`). */
  function UsageText(name: string, u: NameUse): string {
    match u
    case Used => name
    case Renamed(alias) => name + " as " + alias
  }

  /** How a flattened leaf reads at the end of a path. */
  function LeafText(leaf: Flattened.UsedItemLeaf): string {
    match leaf
    case Wildcard => "*"
    case Plain(name, u) => UsageText(name, u)
  }

  /**
   The display of a tree: its items in order (`self` usages, then `*`, then
   the children by name); a single item is printed bare, anything else in
   braces, each item followed by `, `.
   */
  function TreeText(t: PrintableTree): (r: string)
    ensures |ItemTexts(t)| == 1 ==> r == ItemTexts(t)[0]
    ensures |ItemTexts(t)| != 1 ==> |r| >= 2 && r[0] == '{' && r[|r| - 1] == '}'
    ensures |ItemTexts(t)| != 1 ==> r == "{" + JoinItems(ItemTexts(t)) + "}"
    decreases t, 2, 0
  {
    var texts := ItemTexts(t);
    if |texts| == 1 then texts[0] else "{" + JoinItems(texts) + "}"
  }

  /** `PrintableTree::items`, each item already displayed. */
  function ItemTexts(t: PrintableTree): (r: seq<string>)
    ensures |r| == |t.thisUsage| + (if t.wildcard then 1 else 0) + |t.children|
    decreases t, 1, 0
  {
    Common.NameUseLtStrictTotal();
    Order.StrLtStrictTotal();
    var usages := Order.SortedKeys(t.thisUsage, Common.NameUseLt);
    SelfTexts(usages) + (if t.wildcard then ["*"] else []) + ChildTexts(t, Order.SortedKeys(t.children.Keys, Order.StrLt))
  }

  /** The `self` items, one per usage, in the given order. */
  function SelfTexts(usages: seq<NameUse>): (r: seq<string>)
    ensures |r| == |usages|
    ensures forall i :: 0 <= i < |usages| ==> r[i] == UsageText("self", usages[i])
  {
    seq(|usages|, i requires 0 <= i < |usages| => UsageText("self", usages[i]))
  }

  /** The children named in `keys`, in that order. */
  function ChildTexts(t: PrintableTree, keys: seq<string>): (r: seq<string>)
    requires forall k :: k in keys ==> k in t.children
    ensures |r| == |keys|
    ensures forall j :: 0 <= j < |keys| ==> r[j] == ChildText(keys[j], t.children[keys[j]])
    decreases t, 0, |keys|
  {
    if |keys| == 0 then []
    else [ChildText(keys[0], t.children[keys[0]])] + ChildTexts(t, keys[1..])
  }

  /** A child as an item: `name`, `name as alias`, or `name::<tree>`. */
  function ChildText(name: string, c: PrintableChild): string
    decreases c, 3, 0
  {
    match c
    case PlainChild(u) => UsageText(name, u)
    case Subtree(tree) => name + "::" + TreeText(tree)
  }

  /**
   The items of a tree in display order, for any listing of its `self`
   usages and child names in increasing order: the `self` items first, then
   `*` when the tree has a wildcard, then one item per child.
   */
  lemma ItemTextsOrder(t: PrintableTree, us: seq<NameUse>, ks: seq<string>)
    requires Order.StrictlySorted(Common.NameUseLt, us) && (forall u :: u in us <==> u in t.thisUsage)
    requires Order.StrictlySorted(Order.StrLt, ks) && (forall k :: k in ks <==> k in t.children)
    ensures |ItemTexts(t)| == |us| + (if t.wildcard then 1 else 0) + |ks|
    ensures forall i :: 0 <= i < |us| ==> ItemTexts(t)[i] == UsageText("self", us[i])
    ensures t.wildcard ==> ItemTexts(t)[|us|] == "*"
    ensures forall j :: 0 <= j < |ks| ==> ItemTexts(t)[|us| + (if t.wildcard then 1 else 0) + j] == ChildText(ks[j], t.children[ks[j]])
  {
    var r, star := ItemTexts(t), if t.wildcard then ["*"] else [];
    var selfs, kids := SelfTexts(us), ChildTexts(t, ks);
    ItemTextsListing(t, us, ks);
    ThreeParts(r, selfs, star, kids);
    forall j | 0 <= j < |ks|
      ensures ItemTexts(t)[|us| + (if t.wildcard then 1 else 0) + j] == ChildText(ks[j], t.children[ks[j]])
    {
      LastPartAt(r, selfs, star, kids, j);
    }
  }

  /** An index into the last of three joined sequences. */
  lemma LastPartAt<T>(r: seq<T>, a: seq<T>, b: seq<T>, c: seq<T>, j: int)
    requires r == a + b + c && 0 <= j < |c|
    ensures r[|a| + |b| + j] == c[j]
  {
  }

  /** The sorted listings `items` walks are the only strictly increasing ones. */
  lemma ItemTextsListing(t: PrintableTree, us: seq<NameUse>, ks: seq<string>)
    requires Order.StrictlySorted(Common.NameUseLt, us) && (forall u :: u in us <==> u in t.thisUsage)
    requires Order.StrictlySorted(Order.StrLt, ks) && (forall k :: k in ks <==> k in t.children)
    ensures ItemTexts(t) == SelfTexts(us) + (if t.wildcard then ["*"] else []) + ChildTexts(t, ks)
  {
    Common.NameUseLtStrictTotal();
    Order.StrLtStrictTotal();
    Order.SortedUnique(Common.NameUseLt, Order.SortedKeys(t.thisUsage, Common.NameUseLt), us);
    Order.SortedUnique(Order.StrLt, Order.SortedKeys(t.children.Keys, Order.StrLt), ks);
  }

  /** Indexing into three joined sequences. */
  lemma ThreeParts<T>(r: seq<T>, a: seq<T>, b: seq<T>, c: seq<T>)
    requires r == a + b + c
    ensures |r| == |a| + |b| + |c|
    ensures forall i :: 0 <= i < |a| ==> r[i] == a[i]
    ensures forall i :: 0 <= i < |b| ==> r[|a| + i] == b[i]
    ensures forall j :: 0 <= j < |c| ==> r[|a| + |b| + j] == c[j]
  {
  }

  /** Every item followed by `, `. */
  function JoinItems(texts: seq<string>): string {
    if |texts| == 0 then "" else texts[0] + ", " + JoinItems(texts[1..])
  }

  /**
   Built up from the end: no items write nothing, and one more item writes
   the items before it, then the item and `, `.
   */
  lemma {:induction false} JoinItemsSnoc(ts: seq<string>, x: string)
    ensures JoinItems([]) == ""
    ensures JoinItems(ts + [x]) == JoinItems(ts) + x + ", "
    decreases |ts|
  {
    if |ts| == 0 {
      assert [x][1..] == [];
      assert ts + [x] == [x];
    } else {
      assert (ts + [x])[0] == ts[0] && (ts + [x])[1..] == ts[1..] + [x];
      JoinItemsSnoc(ts[1..], x);
      JoinThree(ts[0] + ", ", JoinItems(ts[1..]), x + ", ");
    }
  }

  /** Regrouping three joined strings to the right. */
  lemma JoinThree(a: string, b: string, c: string)
    ensures (a + b) + c == a + (b + c)
  {
  }

  /** `a::b::c` followed by the leaf: how a single import reads. */
  function PathText(path: seq<string>, leaf: Flattened.UsedItemLeaf): string {
    if |path| == 0 then LeafText(leaf) else path[0] + "::" + PathText(path[1..], leaf)
  }

  lemma SortedSingleton<T(!new)>(x: T, lt: (T, T) -> bool)
    requires Order.StrictTotalOrder(lt)
    ensures Order.SortedKeys({x}, lt) == [x]
  {
    var s := Order.SortedKeys({x}, lt);
    assert s[0] in {x};
  }

  /** A tree whose only item is the child `k` displays as that child. */
  lemma SingleChildText(t: PrintableTree, k: string)
    requires t.thisUsage == {} && !t.wildcard && t.children.Keys == {k}
    ensures TreeText(t) == ChildText(k, t.children[k])
  {
    Order.StrLtStrictTotal();
    Common.NameUseLtStrictTotal();
    SortedSingleton(k, Order.StrLt);
    assert Order.SortedKeys(t.thisUsage, Common.NameUseLt) == [];
    assert ChildTexts(t, [k]) == [ChildText(k, t.children[k])];
    assert ItemTexts(t) == [ChildText(k, t.children[k])];
  }

  /** A tree holding a single import prints as that import's path, without braces. */
  lemma {:induction false} SinglePathText(path: seq<string>, leaf: Flattened.UsedItemLeaf)
    ensures TreeText(AddPath(NewTree, path, leaf)) == PathText(path, leaf)
    decreases |path|
  {
    var t := AddPath(NewTree, path, leaf);
    if |path| == 0 {
      if leaf.Plain? {
        SingleChildText(t, leaf.name);
      } else {
        Common.NameUseLtStrictTotal();
        Order.StrLtStrictTotal();
        assert Order.SortedKeys(t.thisUsage, Common.NameUseLt) == [];
        assert Order.SortedKeys(t.children.Keys, Order.StrLt) == [];
        assert ItemTexts(t) == ["*"];
      }
    } else {
      SinglePathText(path[1..], leaf);
      assert BecomeSubtree(Subtree(NewTree)) == NewTree;
      SingleChildText(t, path[0]);
    }
  }

  /** How close to the current crate a root is; declaration order is the sort order. */
  datatype CrateLocalityKey = StandardLib | Dependency | Crate | Super | This

  function LocalityRank(l: CrateLocalityKey): nat {
    match l
    case StandardLib => 0
    case Dependency => 1
    case Crate => 2
    case Super => 3
    case This => 4
  }

  /** The locality part of `PrintableKey::sort_key`. */
  function Locality(rootIdent: string): (r: CrateLocalityKey)
    ensures r == StandardLib <==> rootIdent == "std" || rootIdent == "alloc" || rootIdent == "core"
    ensures r == This <==> rootIdent == "self"
    ensures r == Super <==> rootIdent == "super"
    ensures r == Crate <==> rootIdent == "crate"
  {
    if rootIdent == "std" || rootIdent == "alloc" || rootIdent == "core" then StandardLib
    else if rootIdent == "self" then This
    else if rootIdent == "super" then Super
    else if rootIdent == "crate" then Crate
    else Dependency
  }

  /** `UseItemSortKey`: locality, then configs, then rootedness, then the root identifier. */
  datatype UseItemSortKey = UseItemSortKey(locality: CrateLocalityKey, configs: Common.ConfigsList, rooted: Common.Rooted, ident: string)

  /** The derived `Ord` of `UseItemSortKey`, field by field. */
  function SortKeyLt(a: UseItemSortKey, b: UseItemSortKey): bool {
    || LocalityRank(a.locality) < LocalityRank(b.locality)
    || (a.locality == b.locality &&
        (|| Common.ConfigsLt(a.configs, b.configs)
         || (a.configs == b.configs &&
             (|| Common.RootedLt(a.rooted, b.rooted)
              || (a.rooted == b.rooted && Order.StrLt(a.ident, b.ident))))))
  }

  lemma SortKeyLtStrictTotal()
    ensures Order.StrictTotalOrder(SortKeyLt)
  {
    Common.ConfigsLtStrictTotal();
    Order.StrLtStrictTotal();
  }

  /** The key a group of imports is printed under: one `use` item. */
  datatype PrintableKey = PrintableKey(
    configs: Common.ConfigsList,
    docs: Common.DocsList,
    visibility: Common.Option<Common.Visibility>,
    rooted: Common.Rooted,
    rootIdent: string)

  /** `PrintableKey::sort_key`. */
  function SortKey(k: PrintableKey): (r: UseItemSortKey)
    ensures r.locality == Locality(k.rootIdent)
  {
    UseItemSortKey(Locality(k.rootIdent), k.configs, k.rooted, k.rootIdent)
  }

  /**
   The sort key forgets docs and visibility: two keys share a sort key exactly
   when they agree on configs, rootedness and root identifier.
   */
  lemma SortKeyForgets(a: PrintableKey, b: PrintableKey)
    ensures SortKey(a) == SortKey(b) <==> a.configs == b.configs && a.rooted == b.rooted && a.rootIdent == b.rootIdent
  {
  }

  /** Standard-library roots sort before every other root, and `self` roots after every other root. */
  lemma LocalityOrder(a: PrintableKey, b: PrintableKey)
    ensures Locality(a.rootIdent) == StandardLib && Locality(b.rootIdent) != StandardLib ==> SortKeyLt(SortKey(a), SortKey(b))
    ensures Locality(a.rootIdent) != This && Locality(b.rootIdent) == This ==> SortKeyLt(SortKey(a), SortKey(b))
  {
  }

  /** Which block of the output a key belongs to: its locality and whether it has configs. */
  function Group(k: UseItemSortKey): (nat, bool) {
    (LocalityRank(k.locality), k.configs.IsEmpty())
  }

  /** `UseItemSortKey::is_spaced_from`: a blank line separates different localities, and unconditional from conditional items. */
  function IsSpacedFrom(a: UseItemSortKey, b: UseItemSortKey): (r: bool)
    ensures r <==> Group(a) != Group(b)
  {
    if a.locality != b.locality then true
    else if a.configs.IsEmpty() != b.configs.IsEmpty() then true
    else false
  }

  lemma IsSpacedSymmetric(a: UseItemSortKey, b: UseItemSortKey)
    ensures IsSpacedFrom(a, b) == IsSpacedFrom(b, a)
    ensures !IsSpacedFrom(a, a)
  {
  }

  /**
   In sort order the blocks are contiguous: a key sorted between two keys of
   the same block belongs to that block too.
   */
  lemma GroupsContiguous(a: UseItemSortKey, b: UseItemSortKey, c: UseItemSortKey)
    requires SortKeyLt(a, b) || a == b
    requires SortKeyLt(b, c) || b == c
    requires Group(a) == Group(c)
    ensures Group(b) == Group(a)
  {
    Common.EmptyConfigsFirst(a.configs);
    Common.EmptyConfigsFirst(b.configs);
    Common.EmptyConfigsFirst(c.configs);
    if a.configs.IsEmpty() {
      assert a.configs == Common.EmptyConfigs;
    }
    if b.configs.IsEmpty() {
      assert b.configs == Common.EmptyConfigs;
    }
  }

  /** `a::b::c` for a `pub(in a::b::c)` path. */
  function JoinPath(path: seq<string>): string {
    if |path| == 0 then "" else if |path| == 1 then path[0] else path[0] + "::" + JoinPath(path[1..])
  }

  /** Rust's surface syntax for a visibility. */
  function VisibilityText(v: Common.Visibility): string {
    match v
    case This => "pub(self)"
    case Super => "pub(super)"
    case In(path) => "pub(in " + JoinPath(path) + ")"
    case Crate => "pub(crate)"
    case Public => "pub"
  }

  /** Each config on its own line. */
  function ConfigLines(configs: seq<string>): string {
    if |configs| == 0 then "" else configs[0] + "\n" + ConfigLines(configs[1..])
  }

  /**
   `format_use_item`: the configs, one per line, then the visibility, `use`,
   the optional leading `::`, the root and its tree, and `;` with a newline.
   Docs are not written.
   */
  function FormatUseItem(key: PrintableKey, child: PrintableChild): (r: string)
    ensures |r| >= |ConfigLines(key.configs.configs)| + 6 && r[|r| - 2..] == ";\n"
    ensures r[..|ConfigLines(key.configs.configs)|] == ConfigLines(key.configs.configs)
  {
    ConfigLines(key.configs.configs)
    + (if key.visibility.Some? then VisibilityText(key.visibility.value) + " " else "")
    + "use "
    + (if key.rooted.Rooted? then "::" else "")
    + ChildText(key.rootIdent, child)
    + ";\n"
  }

  /** An item is added at the root level only if it has a path or names something; a root-level `*` panics. */
  predicate Addable(item: Flattened.SingleUsedItem) {
    |item.path| > 0 || item.leaf.Plain?
  }

  /** The first segment of an addable item: the root it is printed under. */
  function RootIdent(item: Flattened.SingleUsedItem): string
    requires Addable(item)
  {
    if |item.path| > 0 then item.path[0] else item.leaf.name
  }

  /** The key `add_single_used_item` builds for an item. */
  function KeyFor(docs: Common.DocsList, configs: Common.ConfigsList, visibility: Common.Option<Common.Visibility>,
                  item: Flattened.SingleUsedItem): (r: PrintableKey)
    requires Addable(item)
    ensures r.visibility == visibility && r.docs == docs && r.configs == configs
    ensures r.rooted == item.rooted && r.rootIdent == RootIdent(item)
  {
    PrintableKey(configs, docs, visibility, item.rooted, RootIdent(item))
  }

  /**
   The child printed under root `rootIdent` imports `item`: the item starts at
   that root, and the rest of its path is in the child's tree (or, for an
   item that is just the root, the child carries the usage).
   */
  predicate ChildLists(rooted: Common.Rooted, rootIdent: string, child: PrintableChild, item: Flattened.SingleUsedItem) {
    && item.rooted == rooted
    && if |item.path| > 0 then
         item.path[0] == rootIdent && child.Subtree? && HasItem(child.tree, item.path[1..], item.leaf)
       else
         item.leaf.Plain? && item.leaf.name == rootIdent && SelfUsage(child, item.leaf.usage)
  }

  /** The two entry arms of `add_single_used_item`: add the rest of the item to the root's child, creating it if vacant. */
  function AddToChild(existing: Common.Option<PrintableChild>, item: Flattened.SingleUsedItem): PrintableChild
    requires Addable(item)
  {
    if |item.path| > 0 then
      match existing
      case None => Subtree(NewFromPath(item.path[1..], item.leaf))
      case Some(c) => Subtree(AddPath(BecomeSubtree(c), item.path[1..], item.leaf))
    else
      match existing
      case None => PlainChild(item.leaf.usage)
      case Some(c) => AddUsage(c, item.leaf.usage)
  }

  /** After adding, the root's child imports what it imported before, plus the item. */
  lemma AddToChildSemantics(existing: Common.Option<PrintableChild>, item: Flattened.SingleUsedItem, other: Flattened.SingleUsedItem)
    requires Addable(item)
    ensures ChildLists(item.rooted, RootIdent(item), AddToChild(existing, item), other) <==>
      (existing.Some? && ChildLists(item.rooted, RootIdent(item), existing.value, other)) || other == item
  {
    var c' := AddToChild(existing, item);
    if |item.path| > 0 {
      if |other.path| > 0 && other.path[0] == item.path[0] {
        if existing.Some? {
          AddPathSemantics(BecomeSubtree(existing.value), item.path[1..], item.leaf, other.path[1..], other.leaf);
          BecomeSubtreeItems(existing.value, other.path[1..], other.leaf);
        }
        assert other.path == item.path <==> other.path[1..] == item.path[1..];
      }
    } else if |other.path| > 0 && existing.Some? {
      var c := existing.value;
      if c != PlainChild(item.leaf.usage) {
        if c.Subtree? {
          HasItemIgnoresSelf(c'.tree, c.tree, other.path[1..], other.leaf);
        } else {
          BareTreeHasNothing(c'.tree, other.path[1..], other.leaf);
        }
      }
    }
  }

  /** One entry of the map as the source keeps it: the first key inserted, and the child. */
  datatype KeptEntry = KeptEntry(key: PrintableKey, child: PrintableChild)

  /**
   `PrintableUseItems` as written: a `BTreeMap` whose `Ord` compares only the
   sort key, so entries are effectively keyed by it.
   */
  type AsWrittenItems = map<UseItemSortKey, KeptEntry>

  /**
   `add_single_used_item` as written. An occupied entry keeps the key it was
   created with, so the item's own docs and visibility are dropped whenever
   an earlier item shares its sort key. A root-level `*` panics (`None`).
   */
  function AddSingleUsedItemAsWritten(items: AsWrittenItems, docs: Common.DocsList, configs: Common.ConfigsList,
                                      visibility: Common.Option<Common.Visibility>, item: Flattened.SingleUsedItem): (r: Common.Option<AsWrittenItems>)
    ensures r.None? <==> !Addable(item)
    ensures r.Some? ==> var sk := SortKey(KeyFor(docs, configs, visibility, item));
      && r.value.Keys == items.Keys + {sk}
      && (forall k :: k in items && k != sk ==> r.value[k] == items[k])
      && r.value[sk].key == (if sk in items then items[sk].key else KeyFor(docs, configs, visibility, item))
  {
    if !Addable(item) then Common.None
    else
      var key := KeyFor(docs, configs, visibility, item);
      var sk := SortKey(key);
      if sk in items then
        Common.Some(items[sk := KeptEntry(items[sk].key, AddToChild(Common.Some(items[sk].child), item))])
      else
        Common.Some(items[sk := KeptEntry(key, AddToChild(Common.None, item))])
  }

  /**
   The discrepancy: `pub use std::fmt;` followed by `use std::io;` leaves one
   entry, printed with `pub`, that imports `std::io` as well.
   */
  lemma VisibilityLostAsWritten()
    ensures var noDocs := Common.DocsList([]);
      var fmt := Flattened.SingleUsedItem(Common.Unrooted, ["std"], Flattened.Plain("fmt", Common.Used));
      var io := Flattened.SingleUsedItem(Common.Unrooted, ["std"], Flattened.Plain("io", Common.Used));
      var m1 := AddSingleUsedItemAsWritten(map[], noDocs, Common.EmptyConfigs, Common.Some(Common.Public), fmt);
      && m1.Some?
      && var m2 := AddSingleUsedItemAsWritten(m1.value, noDocs, Common.EmptyConfigs, Common.None, io);
      && m2.Some?
      && |m2.value| == 1
      && var e := m2.value[SortKey(KeyFor(noDocs, Common.EmptyConfigs, Common.None, io))];
      && e.key.visibility == Common.Some(Common.Public)
      && ChildLists(e.key.rooted, e.key.rootIdent, e.child, io)
  {
    var noDocs := Common.DocsList([]);
    var fmt := Flattened.SingleUsedItem(Common.Unrooted, ["std"], Flattened.Plain("fmt", Common.Used));
    var io := Flattened.SingleUsedItem(Common.Unrooted, ["std"], Flattened.Plain("io", Common.Used));
    var m1 := AddSingleUsedItemAsWritten(map[], noDocs, Common.EmptyConfigs, Common.Some(Common.Public), fmt).value;
    var sk := SortKey(KeyFor(noDocs, Common.EmptyConfigs, Common.None, io));
    assert SortKey(KeyFor(noDocs, Common.EmptyConfigs, Common.Some(Common.Public), fmt)) == sk;
    AddToChildSemantics(Common.Some(m1[sk].child), io, io);
    var m2 := AddSingleUsedItemAsWritten(m1, noDocs, Common.EmptyConfigs, Common.None, io).value;
    assert m2.Keys == {sk};
  }

  /** The printable items, keyed by the whole key: items differing in docs or visibility stay apart. */
  type PrintableUseItems = map<PrintableKey, PrintableChild>

  /** `add_single_used_item` keyed by the whole `PrintableKey`, as its `Eq` says. */
  function AddSingleUsedItem(items: PrintableUseItems, docs: Common.DocsList, configs: Common.ConfigsList,
                             visibility: Common.Option<Common.Visibility>, item: Flattened.SingleUsedItem): (r: Common.Option<PrintableUseItems>)
    ensures r.None? <==> !Addable(item)
    ensures r.Some? ==> var key := KeyFor(docs, configs, visibility, item);
      && r.value.Keys == items.Keys + {key}
      && (forall k :: k in items && k != key ==> r.value[k] == items[k])
  {
    if !Addable(item) then Common.None
    else
      var key := KeyFor(docs, configs, visibility, item);
      var existing := if key in items then Common.Some(items[key]) else Common.None;
      Common.Some(items[key := AddToChild(existing, item)])
  }

  /** The entry for `key` imports `item`. */
  predicate Prints(items: PrintableUseItems, key: PrintableKey, item: Flattened.SingleUsedItem) {
    key in items && ChildLists(key.rooted, key.rootIdent, items[key], item)
  }

  /**
   After adding, every key prints what it printed before, and the item's own
   key (with the item's docs and visibility) prints the item as well; no
   other key gains anything.
   */
  lemma AddSingleUsedItemSemantics(items: PrintableUseItems, docs: Common.DocsList, configs: Common.ConfigsList,
                                   visibility: Common.Option<Common.Visibility>, item: Flattened.SingleUsedItem,
                                   key: PrintableKey, other: Flattened.SingleUsedItem)
    requires Addable(item)
    ensures var r := AddSingleUsedItem(items, docs, configs, visibility, item).value;
      Prints(r, key, other) <==> Prints(items, key, other) || (key == KeyFor(docs, configs, visibility, item) && other == item)
  {
    var k := KeyFor(docs, configs, visibility, item);
    var existing := if k in items then Common.Some(items[k]) else Common.None;
    AddToChildSemantics(existing, item, other);
  }

  /** With the whole key, the two imports of the discrepancy keep their own visibilities. */
  lemma VisibilityKept()
    ensures var noDocs := Common.DocsList([]);
      var fmt := Flattened.SingleUsedItem(Common.Unrooted, ["std"], Flattened.Plain("fmt", Common.Used));
      var io := Flattened.SingleUsedItem(Common.Unrooted, ["std"], Flattened.Plain("io", Common.Used));
      var pubKey := KeyFor(noDocs, Common.EmptyConfigs, Common.Some(Common.Public), fmt);
      var m1 := AddSingleUsedItem(map[], noDocs, Common.EmptyConfigs, Common.Some(Common.Public), fmt).value;
      var m2 := AddSingleUsedItem(m1, noDocs, Common.EmptyConfigs, Common.None, io).value;
      && |m2| == 2
      && Prints(m2, pubKey, fmt) && !Prints(m2, pubKey, io)
      && Prints(m2, KeyFor(noDocs, Common.EmptyConfigs, Common.None, io), io)
  {
    var noDocs := Common.DocsList([]);
    var fmt := Flattened.SingleUsedItem(Common.Unrooted, ["std"], Flattened.Plain("fmt", Common.Used));
    var io := Flattened.SingleUsedItem(Common.Unrooted, ["std"], Flattened.Plain("io", Common.Used));
    var pubKey := KeyFor(noDocs, Common.EmptyConfigs, Common.Some(Common.Public), fmt);
    var ioKey := KeyFor(noDocs, Common.EmptyConfigs, Common.None, io);
    var m1 := AddSingleUsedItem(map[], noDocs, Common.EmptyConfigs, Common.Some(Common.Public), fmt).value;
    AddSingleUsedItemSemantics(map[], noDocs, Common.EmptyConfigs, Common.Some(Common.Public), fmt, pubKey, fmt);
    AddSingleUsedItemSemantics(map[], noDocs, Common.EmptyConfigs, Common.Some(Common.Public), fmt, pubKey, io);
    AddSingleUsedItemSemantics(m1, noDocs, Common.EmptyConfigs, Common.None, io, pubKey, fmt);
    AddSingleUsedItemSemantics(m1, noDocs, Common.EmptyConfigs, Common.None, io, pubKey, io);
    AddSingleUsedItemSemantics(m1, noDocs, Common.EmptyConfigs, Common.None, io, ioKey, io);
    assert pubKey != ioKey;
    assert fmt != io;
  }

  /** One argument tuple of `build_from_use_items`. */
  datatype Source = Source(docs: Common.DocsList, configs: Common.ConfigsList, visibility: Common.Option<Common.Visibility>, item: Flattened.SingleUsedItem)

  /** `PrintableUseItems::build_from_use_items`: add every item in order; any root-level `*` panics. */
  function BuildFromUseItems(sources: seq<Source>): (r: Common.Option<PrintableUseItems>)
    ensures r.Some? <==> forall i :: 0 <= i < |sources| ==> Addable(sources[i].item)
    decreases |sources|
  {
    if |sources| == 0 then Common.Some(map[])
    else
      var init := sources[..|sources| - 1];
      var last := sources[|sources| - 1];
      AllAddableSnoc(sources, init, last);
      match BuildFromUseItems(init)
      case None => Common.None
      case Some(m) => AddSingleUsedItem(m, last.docs, last.configs, last.visibility, last.item)
  }

  /** Every source is addable exactly when every earlier one is and the last one is. */
  lemma AllAddableSnoc(sources: seq<Source>, init: seq<Source>, last: Source)
    requires |sources| > 0 && init == sources[..|sources| - 1] && last == sources[|sources| - 1]
    ensures (forall i :: 0 <= i < |sources| ==> Addable(sources[i].item)) <==>
      (forall i :: 0 <= i < |init| ==> Addable(init[i].item)) && Addable(last.item)
  {
    assert forall i :: 0 <= i < |init| ==> init[i] == sources[i];
  }

  /** The key a source is printed under. */
  function SourceKey(src: Source): PrintableKey
    requires Addable(src.item)
  {
    KeyFor(src.docs, src.configs, src.visibility, src.item)
  }

  /** Some source in the list is `item` with key `key`. */
  predicate Listed(sources: seq<Source>, key: PrintableKey, item: Flattened.SingleUsedItem)
    decreases |sources|
  {
    && |sources| > 0
    && var last := sources[|sources| - 1];
    || (Addable(last.item) && SourceKey(last) == key && last.item == item)
    || Listed(sources[..|sources| - 1], key, item)
  }

  /** What gets printed is exactly what was listed, each item under its own key. */
  lemma {:induction false} BuildFromUseItemsSemantics(sources: seq<Source>, key: PrintableKey, item: Flattened.SingleUsedItem)
    requires BuildFromUseItems(sources).Some?
    ensures Prints(BuildFromUseItems(sources).value, key, item) <==> Listed(sources, key, item)
    decreases |sources|
  {
    if |sources| > 0 {
      var init := sources[..|sources| - 1];
      var last := sources[|sources| - 1];
      assert forall i :: 0 <= i < |init| ==> init[i] == sources[i];
      BuildFromUseItemsSemantics(init, key, item);
      AddSingleUsedItemSemantics(BuildFromUseItems(init).value, last.docs, last.configs, last.visibility, last.item, key, item);
    }
  }

  /** An order on optional visibilities, to break ties between keys that share a sort key. */
  function VisibilityLt(a: Common.Option<Common.Visibility>, b: Common.Option<Common.Visibility>): bool {
    match (a, b)
    case (None, Some(_)) => true
    case (Some(v), Some(w)) =>
      || Flattened.Publicity(v) < Flattened.Publicity(w)
      || (v.In? && w.In? && Common.StringsLt(v.path, w.path))
    case _ => false
  }

  /** Print order: by sort key, ties broken by visibility, then by docs. */
  function PrintableKeyLt(a: PrintableKey, b: PrintableKey): bool {
    || SortKeyLt(SortKey(a), SortKey(b))
    || (SortKey(a) == SortKey(b) &&
        (|| VisibilityLt(a.visibility, b.visibility)
         || (a.visibility == b.visibility && Common.StringsLt(a.docs.blocks, b.docs.blocks))))
  }

  lemma VisibilityLtStrictTotal()
    ensures Order.StrictTotalOrder(VisibilityLt)
  {
    Common.StringsLtStrictTotal();
  }

  lemma PrintableKeyLtStrictTotal()
    ensures Order.StrictTotalOrder(PrintableKeyLt)
  {
    SortKeyLtStrictTotal();
    VisibilityLtStrictTotal();
    Common.StringsLtStrictTotal();
    forall a: PrintableKey, b: PrintableKey | a != b ensures PrintableKeyLt(a, b) || PrintableKeyLt(b, a) {
      SortKeyForgets(a, b);
    }
  }

  /** A single import, printed on its own, reads as its whole path. */
  lemma FormatSingleImport(docs: Common.DocsList, configs: Common.ConfigsList, visibility: Common.Option<Common.Visibility>,
                           item: Flattened.SingleUsedItem)
    requires Addable(item)
    ensures FormatUseItem(KeyFor(docs, configs, visibility, item), AddToChild(Common.None, item)) ==
      ConfigLines(configs.configs)
      + (if visibility.Some? then VisibilityText(visibility.value) + " " else "")
      + "use " + (if item.rooted.Rooted? then "::" else "") + PathText(item.path, item.leaf) + ";\n"
  {
    if |item.path| > 0 {
      SinglePathText(item.path[1..], item.leaf);
    }
  }

  /** The key at `i` starts a new block: it is spaced from the key printed before it. */
  predicate Spaced(keys: seq<PrintableKey>, i: int) {
    0 < i < |keys| && IsSpacedFrom(SortKey(keys[i]), SortKey(keys[i - 1]))
  }

  /** The `Display` of `PrintableUseItems`: every entry in key order, with a blank line before each new block. */
  function Display(items: PrintableUseItems): (r: string)
    ensures |items| == 0 <==> r == ""
  {
    PrintableKeyLtStrictTotal();
    var keys := Order.SortedKeys(items.Keys, PrintableKeyLt);
    Render(items, keys, 0)
  }

  /** The entries from position `i` on. */
  function Render(items: PrintableUseItems, keys: seq<PrintableKey>, i: nat): (r: string)
    requires forall k :: k in keys ==> k in items
    requires i <= |keys|
    ensures i == |keys| <==> r == ""
    decreases |keys| - i
  {
    if i == |keys| then ""
    else
      (if Spaced(keys, i) then "\n" else "") + FormatUseItem(keys[i], items[keys[i]]) + Render(items, keys, i + 1)
  }

  /** `Display` renders any strictly sorted listing of the map's keys: the sorted order is the only one. */
  lemma DisplayListing(items: PrintableUseItems, keys: seq<PrintableKey>)
    requires Order.StrictlySorted(PrintableKeyLt, keys)
    requires forall k :: k in keys <==> k in items
    ensures Display(items) == Render(items, keys, 0)
  {
    PrintableKeyLtStrictTotal();
    Order.SortedUnique(PrintableKeyLt, Order.SortedKeys(items.Keys, PrintableKeyLt), keys);
  }

  /** Rendering with one more key at the end appends that key's entry, spaced as it is from the key before it. */
  lemma {:induction false} RenderSnoc(items: PrintableUseItems, keys: seq<PrintableKey>, i: nat)
    requires |keys| > 0 && keys[|keys| - 1] !in keys[..|keys| - 1]
    requires forall k :: k in keys ==> k in items
    requires i < |keys|
    ensures Render(items, keys, i) ==
      Render(items - {keys[|keys| - 1]}, keys[..|keys| - 1], i)
      + (if Spaced(keys, |keys| - 1) then "\n" else "")
      + FormatUseItem(keys[|keys| - 1], items[keys[|keys| - 1]])
    decreases |keys| - i
  {
    var n := |keys|;
    var last := keys[n - 1];
    var init := keys[..n - 1];
    var rest := items - {last};
    if i < n - 1 {
      var entry := (if Spaced(keys, i) then "\n" else "") + FormatUseItem(keys[i], items[keys[i]]);
      RenderInitStep(items, keys, i);
      RenderSnoc(items, keys, i + 1);
      ShiftSnoc(Render(items, keys, i), Render(items, keys, i + 1), Render(rest, init, i + 1), Render(rest, init, i),
                entry, (if Spaced(keys, n - 1) then "\n" else ""), FormatUseItem(last, items[last]));
    }
  }

  /** Before the last key, rendering without it writes the same entry as rendering with it. */
  lemma RenderInitStep(items: PrintableUseItems, keys: seq<PrintableKey>, i: nat)
    requires |keys| > 0 && keys[|keys| - 1] !in keys[..|keys| - 1]
    requires forall k :: k in keys ==> k in items
    requires i < |keys| - 1
    ensures Render(items - {keys[|keys| - 1]}, keys[..|keys| - 1], i) ==
      (if Spaced(keys, i) then "\n" else "") + FormatUseItem(keys[i], items[keys[i]])
      + Render(items - {keys[|keys| - 1]}, keys[..|keys| - 1], i + 1)
  {
    var init := keys[..|keys| - 1];
    assert keys[i] == init[i] && keys[i] in init;
    assert Spaced(keys, i) == Spaced(init, i);
    assert (items - {keys[|keys| - 1]})[init[i]] == items[keys[i]];
  }

  /** One entry in front of both sides of a snoc. */
  lemma ShiftSnoc(x: string, y: string, z: string, w: string, a: string, c: string, d: string)
    requires x == a + y && y == z + c + d && w == a + z
    ensures x == w + c + d
  {
  }

  /** A single entry displays as that entry alone. */
  lemma DisplayOne(items: PrintableUseItems, k: PrintableKey)
    requires items.Keys == {k}
    ensures Display(items) == FormatUseItem(k, items[k])
  {
    DisplayListing(items, [k]);
    assert !Spaced([k], 0);
  }

  /**
   `Display` built up entry by entry: with `last` the greatest key and `prev`
   the one below it, the display is that of the map without `last`, then a
   blank line when `last` opens a new block, then `last`'s own line.
   */
  lemma DisplaySnoc(items: PrintableUseItems, prev: PrintableKey, last: PrintableKey)
    requires prev in items && last in items && PrintableKeyLt(prev, last)
    requires forall k :: k in items ==> k == last || k == prev || PrintableKeyLt(k, prev)
    ensures Display(items) ==
      Display(items - {last})
      + (if IsSpacedFrom(SortKey(last), SortKey(prev)) then "\n" else "")
      + FormatUseItem(last, items[last])
  {
    var keys := TopTwoListing(items, prev, last);
    RenderSnoc(items, keys, 0);
  }

  /** The listing `Display` uses for a map whose two greatest keys are `prev` and then `last`. */
  lemma TopTwoListing(items: PrintableUseItems, prev: PrintableKey, last: PrintableKey) returns (keys: seq<PrintableKey>)
    requires prev in items && last in items && PrintableKeyLt(prev, last)
    requires forall k :: k in items ==> k == last || k == prev || PrintableKeyLt(k, prev)
    ensures |keys| >= 2 && keys[|keys| - 1] == last && keys[|keys| - 2] == prev
    ensures last !in keys[..|keys| - 1] && forall k :: k in keys ==> k in items
    ensures Display(items) == Render(items, keys, 0)
    ensures Display(items - {last}) == Render(items - {last}, keys[..|keys| - 1], 0)
  {
    keys := SortedTopTwo(items, prev, last);
    DisplayListing(items, keys);
    DisplayListing(items - {last}, keys[..|keys| - 1]);
  }

  /** The strictly ascending listing of a map's keys whose two greatest are `prev` and then `last`. */
  lemma SortedTopTwo(items: PrintableUseItems, prev: PrintableKey, last: PrintableKey) returns (keys: seq<PrintableKey>)
    requires prev in items && last in items && PrintableKeyLt(prev, last)
    requires forall k :: k in items ==> k == last || k == prev || PrintableKeyLt(k, prev)
    ensures |keys| >= 2 && keys[|keys| - 1] == last && keys[|keys| - 2] == prev
    ensures Order.StrictlySorted(PrintableKeyLt, keys) && forall k :: k in keys <==> k in items
    ensures Order.StrictlySorted(PrintableKeyLt, keys[..|keys| - 1])
    ensures forall k :: k in keys[..|keys| - 1] <==> k in items - {last}
  {
    RemovedKeys(items, last);
    PrintableKeyLtStrictTotal();
    Order.SortedKeysTopTwo(PrintableKeyLt, items.Keys, prev, last);
    keys := Order.SortedKeys(items.Keys, PrintableKeyLt);
  }

  lemma RemovedKeys(items: PrintableUseItems, k: PrintableKey)
    ensures (items - {k}).Keys == items.Keys - {k}
  {
  }

  /** The number of blank lines `Display` writes for keys in this order. */
  function BlankLines(keys: seq<PrintableKey>): nat
    decreases |keys|
  {
    if |keys| < 2 then 0
    else BlankLines(keys[..|keys| - 1]) + (if Spaced(keys, |keys| - 1) then 1 else 0)
  }

  /** The blocks the keys fall into. */
  function Blocks(keys: seq<PrintableKey>): set<(nat, bool)> {
    set i | 0 <= i < |keys| :: Group(SortKey(keys[i]))
  }

  lemma KeyLtSortKeyLe(a: PrintableKey, b: PrintableKey)
    requires PrintableKeyLt(a, b)
    ensures SortKeyLt(SortKey(a), SortKey(b)) || SortKey(a) == SortKey(b)
  {
  }

  lemma BlocksSnoc(keys: seq<PrintableKey>)
    requires |keys| > 0
    ensures Blocks(keys) == Blocks(keys[..|keys| - 1]) + {Group(SortKey(keys[|keys| - 1]))}
  {
    var init := keys[..|keys| - 1];
    assert forall i :: 0 <= i < |init| ==> init[i] == keys[i];
  }

  lemma SortedPrefix(keys: seq<PrintableKey>)
    requires Order.StrictlySorted(PrintableKeyLt, keys)
    requires |keys| > 0
    ensures Order.StrictlySorted(PrintableKeyLt, keys[..|keys| - 1])
  {
  }

  /** A key spaced from its predecessor opens a block no earlier key belongs to. */
  lemma SpacedOpensBlock(keys: seq<PrintableKey>)
    requires Order.StrictlySorted(PrintableKeyLt, keys)
    requires |keys| >= 2 && Spaced(keys, |keys| - 1)
    ensures Group(SortKey(keys[|keys| - 1])) !in Blocks(keys[..|keys| - 1])
  {
    var n := |keys|;
    var g := Group(SortKey(keys[n - 1]));
    forall j | 0 <= j < n - 1 ensures Group(SortKey(keys[j])) != g {
      if Group(SortKey(keys[j])) == g {
        var a, b, c := SortKey(keys[j]), SortKey(keys[n - 2]), SortKey(keys[n - 1]);
        if j < n - 2 {
          KeyLtSortKeyLe(keys[j], keys[n - 2]);
        }
        KeyLtSortKeyLe(keys[n - 2], keys[n - 1]);
        GroupsContiguous(a, b, c);
      }
    }
  }

  /**
   In print order there is exactly one blank line between consecutive blocks
   and none inside a block: the blank lines number one less than the blocks.
   */
  lemma {:induction false} BlankLinesSeparateBlocks(keys: seq<PrintableKey>)
    requires Order.StrictlySorted(PrintableKeyLt, keys)
    requires |keys| > 0
    ensures BlankLines(keys) + 1 == |Blocks(keys)|
    decreases |keys|
  {
    var n := |keys|;
    BlocksSnoc(keys);
    var g := Group(SortKey(keys[n - 1]));
    if n == 1 {
      assert Blocks(keys[..0]) == {};
      assert Blocks(keys) == {g};
    } else {
      var init := keys[..n - 1];
      SortedPrefix(keys);
      BlankLinesSeparateBlocks(init);
      assert BlankLines(keys) == BlankLines(init) + (if Spaced(keys, n - 1) then 1 else 0);
      if Spaced(keys, n - 1) {
        SpacedOpensBlock(keys);
        assert |Blocks(init) + {g}| == |Blocks(init)| + 1;
      } else {
        assert Group(SortKey(init[n - 2])) == g;
        assert g in Blocks(init);
        assert Blocks(init) + {g} == Blocks(init);
      }
    }
  }
}
