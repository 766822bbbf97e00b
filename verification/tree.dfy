/**
 The comprehensive tree form of a `use` declaration: a prefix tree of path
 segments in which every node may itself be imported (`used`), may import
 everything below it (`wildcard`), and owns a map of child segments.
 */
module Tree {
  import opened Common
  import Order

  /** What the last segment of an inserted path brings into scope. */
  datatype Leaf = UsedLeaf(usage: NameUse) | WildcardLeaf

  /** The things that belong to one path prefix. */
  datatype Branches = Branches(used: Option<NameUse>, wildcard: bool, children: map<string, Branches>)

  /** `Branches::default()`. */
  const EmptyBranches: Branches := Branches(None, false, map[])

  /** A node is alive when it imports something or still has a child. */
  predicate Alive(b: Branches) {
    b.used.Some? || b.wildcard || |b.children| > 0
  }

  /** `Branches::insert`: walk `path`, creating missing children, and mark the leaf at its end. */
  function Insert(b: Branches, path: seq<string>, leaf: Leaf): (r: Branches)
    ensures |path| == 0 && leaf.WildcardLeaf? ==> r == b.(wildcard := true)
    ensures |path| == 0 && leaf.UsedLeaf? ==> r == b.(used := Some(leaf.usage))
    ensures |path| > 0 ==> r.used == b.used && r.wildcard == b.wildcard
    ensures |path| > 0 ==> r.children.Keys == b.children.Keys + {path[0]}
    ensures |path| > 0 ==> forall k :: k in b.children && k != path[0] ==> r.children[k] == b.children[k]
    decreases |path|
  {
    if |path| == 0 then
      match leaf
      case WildcardLeaf => b.(wildcard := true)
      case UsedLeaf(usage) => b.(used := Some(usage))
    else
      var child := if path[0] in b.children then b.children[path[0]] else EmptyBranches;
      b.(children := b.children[path[0] := Insert(child, path[1..], leaf)])
  }

  /** The node reached by following `path` from `b`, if every segment exists. */
  function Follow(b: Branches, path: seq<string>): Option<Branches>
    decreases |path|
  {
    if |path| == 0 then Some(b)
    else if path[0] in b.children then Follow(b.children[path[0]], path[1..])
    else None
  }

  /** The trie records `leaf` at `path`. */
  predicate HasLeaf(b: Branches, path: seq<string>, leaf: Leaf) {
    match Follow(b, path)
    case None => false
    case Some(n) =>
      match leaf
      case WildcardLeaf => n.wildcard
      case UsedLeaf(u) => n.used == Some(u)
  }

  /** After an insert, following the inserted path reaches a node carrying the inserted leaf. */
  lemma {:induction false} InsertReaches(b: Branches, path: seq<string>, leaf: Leaf)
    ensures Follow(Insert(b, path, leaf), path).Some?
    ensures HasLeaf(Insert(b, path, leaf), path, leaf)
    decreases |path|
  {
    if |path| > 0 {
      var child := if path[0] in b.children then b.children[path[0]] else EmptyBranches;
      InsertReaches(child, path[1..], leaf);
    }
  }

  /**
   The set meaning of insert: afterwards the trie records exactly what it
   recorded before plus the new leaf, except that a used leaf at the same
   path replaces the previous usage (`used` holds one usage).
   */
  lemma {:induction false} InsertSemantics(b: Branches, path: seq<string>, leaf: Leaf, q: seq<string>, l: Leaf)
    ensures HasLeaf(Insert(b, path, leaf), q, l) <==>
      (q == path && l == leaf) || (HasLeaf(b, q, l) && !(q == path && leaf.UsedLeaf? && l.UsedLeaf?))
    decreases |path|
  {
    var r := Insert(b, path, leaf);
    if |path| == 0 {
      if |q| > 0 {
        assert Follow(r, q) == Follow(b, q);
      }
    } else if |q| == 0 {
      assert Follow(r, q) == Some(r) && Follow(b, q) == Some(b);
    } else if q[0] != path[0] {
      assert Follow(r, q) == Follow(b, q);
    } else {
      var child := if path[0] in b.children then b.children[path[0]] else EmptyBranches;
      InsertSemantics(child, path[1..], leaf, q[1..], l);
      assert Follow(r, q) == Follow(Insert(child, path[1..], leaf), q[1..]);
      if path[0] in b.children {
        assert Follow(b, q) == Follow(child, q[1..]);
      } else {
        assert Follow(b, q) == None;
        EmptyHasNothing(q[1..], l);
      }
      assert q == path <==> q[1..] == path[1..];
    }
  }

  lemma EmptyHasNothing(q: seq<string>, l: Leaf)
    ensures !HasLeaf(EmptyBranches, q, l)
  {
  }

  /**
   `Branches::clean` applied to a node whose parent has the given wildcard
   flag: the parent's retain closure first drops a plain (non-renamed) usage
   under a wildcard, then cleans the child. Children that end up dead are
   removed.
   */
  function CleanAt(b: Branches, parentWildcard: bool): (r: Branches)
    ensures r.used == (if parentWildcard && b.used == Some(Used) then None else b.used)
    ensures r.wildcard == b.wildcard
    ensures r.children.Keys <= b.children.Keys
    ensures forall k :: k in r.children ==> r.children[k] == CleanAt(b.children[k], b.wildcard)
    ensures forall k :: k in b.children ==> (k in r.children <==> Alive(CleanAt(b.children[k], b.wildcard)))
    ensures NoDeadSubtree(r)
    decreases b
  {
    var used := if parentWildcard && b.used == Some(Used) then None else b.used;
    var kids := map k | k in b.children && Alive(CleanAt(b.children[k], b.wildcard)) :: CleanAt(b.children[k], b.wildcard);
    Branches(used, b.wildcard, kids)
  }

  /** Under a wildcard no surviving child keeps a plain usage; renamed children survive with their rename. */
  lemma CleanAtWildcardSiblings(b: Branches, pw: bool)
    ensures var r := CleanAt(b, pw);
      && (r.wildcard ==> forall k :: k in r.children ==> r.children[k].used != Some(Used))
      && (forall k :: k in b.children && b.children[k].used.Some? && b.children[k].used.value.Renamed? ==>
            k in r.children && r.children[k].used == b.children[k].used)
  {
  }

  /** Every child, at every depth, is alive. */
  predicate NoDeadSubtree(b: Branches)
    decreases b
  {
    forall k :: k in b.children ==> Alive(b.children[k]) && NoDeadSubtree(b.children[k])
  }

  /** `Branches::clean` on a root: the cleaned node and whether it is still alive. */
  function Clean(b: Branches): (r: (Branches, bool))
    ensures r.1 <==> (r.0.used.Some? || r.0.wildcard || |r.0.children| > 0)
    ensures r.0.used == b.used && r.0.wildcard == b.wildcard
    ensures NoDeadSubtree(r.0)
    ensures b.wildcard ==> forall k :: k in r.0.children ==> r.0.children[k].used != Some(Used)
  {
    CleanAtWildcardSiblings(b, false);
    var c := CleanAt(b, false);
    (c, Alive(c))
  }

  /** A node whose children are already clean and alive, and which keeps no stripped usage, is a fixpoint. */
  lemma CleanAtFixpoint(c: Branches, pw: bool)
    requires !(pw && c.used == Some(Used))
    requires forall k :: k in c.children ==> Alive(c.children[k]) && CleanAt(c.children[k], c.wildcard) == c.children[k]
    ensures CleanAt(c, pw) == c
  {
    var cc := CleanAt(c, pw);
    assert cc.children.Keys == c.children.Keys;
    assert cc.children == c.children;
  }

  /** Cleaning twice changes nothing the second time. */
  lemma {:induction false} CleanAtIdempotent(b: Branches, pw: bool)
    ensures CleanAt(CleanAt(b, pw), pw) == CleanAt(b, pw)
    decreases b
  {
    var c := CleanAt(b, pw);
    forall k | k in c.children
      ensures Alive(c.children[k]) && CleanAt(c.children[k], c.wildcard) == c.children[k]
    {
      CleanAtIdempotent(b.children[k], b.wildcard);
    }
    CleanAtFixpoint(c, pw);
  }

  lemma CleanIdempotent(b: Branches)
    ensures Clean(Clean(b).0) == Clean(b)
  {
    CleanAtIdempotent(b, false);
  }

  /** A `use` item's root segment, optionally prefixed by `::`. */
  datatype TreeRoot = TreeRoot(rooted: bool, identifier: string)

  /** Derived `Ord` of `TreeRoot`: `rooted` first (false < true), then the identifier. */
  function TreeRootLt(a: TreeRoot, b: TreeRoot): bool {
    (!a.rooted && b.rooted) || (a.rooted == b.rooted && Order.StrLt(a.identifier, b.identifier))
  }

  lemma TreeRootLtStrictTotal()
    ensures Order.StrictTotalOrder(TreeRootLt)
    ensures forall a: TreeRoot, b: TreeRoot :: a.rooted != b.rooted ==> (TreeRootLt(a, b) <==> b.rooted)
  {
    Order.StrLtStrictTotal();
  }

  /** A whole `use` item: attributes plus one trie per root. */
  datatype UseItem = UseItem(docs: DocsList, configs: ConfigsList, visibility: Option<Visibility>, children: map<TreeRoot, Branches>)

  /** `UseItem::new`: no docs, no configs, no paths. */
  function NewUseItem(visibility: Option<Visibility>): (r: UseItem)
    ensures r.visibility == visibility && r.docs.IsEmpty() && r.configs.IsEmpty() && |r.children| == 0
  {
    UseItem(DocsList([]), EmptyConfigs, visibility, map[])
  }

  /** `UseItem::insert`: insert under `root`, creating its trie if absent; other roots are untouched. */
  function UseItemInsert(item: UseItem, root: TreeRoot, path: seq<string>, leaf: Leaf): (r: UseItem)
    ensures r.docs == item.docs && r.configs == item.configs && r.visibility == item.visibility
    ensures r.children.Keys == item.children.Keys + {root}
    ensures forall k :: k in item.children && k != root ==> r.children[k] == item.children[k]
    ensures HasLeaf(r.children[root], path, leaf)
  {
    var branches := if root in item.children then item.children[root] else EmptyBranches;
    InsertReaches(branches, path, leaf);
    item.(children := item.children[root := Insert(branches, path, leaf)])
  }
}
