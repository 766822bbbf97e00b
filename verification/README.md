# usefix, modelled in Dafny

usefix normalises the `use` declarations of a Rust source file, and it also
works on files that hold git conflict markers. This project models its core
as immutable Dafny datatypes and pure functions, in ten modules:

- **Common** (`common.rs`). The shared vocabulary:
  - `NameUse`, used or renamed;
  - `Rooted`, whether a path has a leading `::`;
  - visibilities, docs and configs.
- **Tree** (`tree.rs`). The prefix tree of path segments that one `use`
  item is parsed into. It has two operations:
  - `insert`;
  - `clean`, which drops dead branches and plain imports that sit next to a
    wildcard.
- **Flattened** (`flattened.rs`). The flattened form: one entry per imported
  item, keyed by (rooted, path, leaf). It also holds:
  - leaf subsumption;
  - "more public wins" merging of visibilities;
  - property groups keyed by configs.
- **Printable** (`printable.rs`). Regrouping flat items into printable trees
  and ordering the top-level `use` items by locality, configs, rootedness and
  root identifier. Rendering puts a blank line between groups.
- **GitFile** (`gitfile.rs`). The conflict-file parser: plain lines and
  `<<<<<<<` / `=======` / `>>>>>>>` conflicts. It also covers:
  - line numbering in the conflicted file;
  - the derived left and right files;
  - mapping derived line numbers back to the original ones.
- **WriteFile** (`write_file.rs`). Writing the corrected file:
  - choosing the insert point for the re-rendered imports;
  - dropping consumed lines;
  - splitting a conflict around the insert point;
  - collapsing conflicts whose halves became identical.

  A writer is modelled as the sequence of strings written to it.
- **State** (`state.rs`). The parser's line buffer, frame stack and
  current `use` item.
- **Parsers** (`parsers.rs`). Identifiers, raw identifiers and leading
  whitespace.
- **DocPrint** (`docprint.rs`). How doc blocks are printed: the `/* */`
  balance check and the three printed forms.
- **Order**. Generic strict total orders, lexicographic order on sequences,
  and the sorted key sequence of a finite set. It stands for the ordered
  iteration of Rust's `BTreeMap` and `BTreeSet`.

Three different `NameUse` enums appear in the source. One type is used for
all of them, the one from `common.rs`. In `printable.rs` a leaf is written
`UsedItemLeaf::Used(x)` / `Renamed { original, renamed }`. It is read as
`flattened.rs`'s `Plain(x, Used)` / `Plain(original, Renamed(renamed))`.
Identifiers are strings. `Visibility` is `This | Super | In(path) | Crate |
Public`. Docs and configs are sequences of strings whose only shared
property is emptiness.

## Model

| member | source | states |
|---|---|---|
| Common.AsRef | src/common.rs:12-17 | `as_ref` keeps the variant, and a rename keeps its alias |
| Common.UsedBeforeRenamed | src/common.rs:2-9 | the derived order puts `Used` before every `Renamed(_)` and nothing before `Used` |
| Common.RootedFirst | src/common.rs:20-24 | `Rooted` sorts before `Unrooted` and nothing sorts before `Rooted` |
| Common.NameUseLtStrictTotal | src/common.rs:2-9 | the derived order of `NameUse` is a strict total order |
| Common.TrimEnd | src/gitfile.rs:276 | `trim_end` returns a prefix not ending in whitespace, and everything it drops is whitespace |
| Tree.Insert | src/tree.rs:57-69 | with an empty path a wildcard leaf sets only `wildcard`, and a used leaf overwrites only `used`. With a non-empty path the node's own flags are kept, only the child keyed by the first segment is added or changed, and every other child is unchanged |
| Tree.InsertReaches | src/tree.rs:57-69 | after `insert(path, leaf)`, following `path` reaches a node that carries the leaf |
| Tree.InsertSemantics | src/tree.rs:57-69 | after an insert the trie records exactly what it recorded before plus the new leaf. The exception is a used leaf at the same path, whose usage is replaced |
| Tree.CleanAt | src/tree.rs:73-83 | cleaning under a wildcard parent drops a plain `Used` mark. The node's wildcard is kept, and children are kept iff they are still alive after cleaning, so no dead subtree survives at any depth |
| Tree.Clean | src/tree.rs:73-83 | `clean` returns true iff the cleaned node has `used`, `wildcard` or a surviving child. No dead subtree survives. Under a wildcard no child keeps a plain `Used` |
| Tree.CleanAtWildcardSiblings | src/tree.rs:74-80 | under a wildcard no surviving child keeps `Used`, and a renamed child survives with its rename |
| Tree.CleanIdempotent | src/tree.rs:73-83 | `clean` is idempotent, both on the tree and on the returned flag |
| Tree.CleanAtIdempotent | src/tree.rs:73-83 | cleaning twice under the same parent wildcard flag gives the same result as cleaning once |
| Tree.TreeRootLtStrictTotal | src/tree.rs:125-132 | the derived order of `TreeRoot` is a strict total order that compares `rooted` first (false before true) |
| Tree.UseItemInsert | src/tree.rs:107-114 | `UseItem::insert` adds or changes only the trie under the given root, which then holds the leaf. Other roots and the item's attributes are unchanged |
| Tree.NewUseItem | src/state.rs:192-195 | a fresh `use` item has the given visibility, no docs, no configs and no roots |
| Flattened.LeafSubsumption | src/flattened.rs:64-76 | a wildcard subsumes exactly plain leaves that are used or renamed to `_`. `Plain(n, Used)` subsumes exactly `Plain(n, Renamed("_"))`. A rename subsumes nothing, a wildcard is never subsumed, and no leaf subsumes itself |
| Flattened.SubsumerSortsFirst | src/flattened.rs:41-51 | a subsuming leaf sorts strictly before the leaf it subsumes, which is why the order of the variants matters |
| Flattened.ItemSubsumption | src/flattened.rs:99-103 | an item is subsumed only by an item with the same rooted flag and path whose leaf subsumes its leaf |
| Flattened.MergeVisibilities | src/flattened.rs:124-151 | `None` is an identity on both sides and the result is one of the inputs. The more public one wins in the order This < Super < In < Crate < Public. Of two `In` paths the shorter wins, and on a tie the second does |
| Flattened.GroupMerge | src/flattened.rs:116-121 | merging keeps the old docs, appends the new ones, and merges the visibilities |
| Flattened.AddPropertiesShape | src/flattened.rs:161-191 | `add_properties` keeps the invariant "an unconditional group is the only group". An unconditional item leaves only the unconditional group. A conditional item changes only its own configs' group. The group that changes (the existing unconditional one, or the item's configs' group, created empty if missing) ends with the item's docs after its own and takes the merged visibility |
| Flattened.UnconditionalCollapse | src/flattened.rs:171-184 | an unconditional item folds all groups into one whose visibility is the most public of all of them and of the item, and whose docs are every group's docs in key order followed by the item's docs |
| Flattened.FoldGroupsMerges | src/flattened.rs:172-178 | the fold's docs are the accumulator's docs followed by every folded group's docs lists, group by group in key order, and the fold ends with the most public visibility |
| Flattened.ToList | src/flattened.rs:267-283 | `to_list` has one identifier per link of the chain, ends with the node's own identifier, and extends the parent's list |
| Flattened.ToListFromList | src/flattened.rs:267-283 | a chain built from a non-empty path lists that path back |
| Flattened.AddEntry | src/flattened.rs:232-233 | `entry(item).or_default()` then `add_properties` changes exactly the one entry |
| Flattened.ListsLevel | src/flattened.rs:225-257 | the entries a trie node stands for are its own wildcard `(rooted, P, Wildcard)`, its own usage `(rooted, P without last, Plain(last, usage))`, and the entries of its children |
| Flattened.AddBranches | src/flattened.rs:218-258 | `add_branches` applies `add_properties` exactly once to every entry the subtree lists, creating missing ones, and leaves every other entry unchanged |
| Flattened.AddChildren | src/flattened.rs:250-257 | the loop over the children, in key order, adds exactly the entries below the children visited |
| Flattened.AddTree | src/flattened.rs:203-215 | `add_tree` applies `add_properties` exactly once to every entry any root's trie lists, and to nothing else |
| Flattened.AddRoots | src/flattened.rs:204-214 | the loop over the roots adds exactly the entries of the roots visited |
| Printable.BecomeSubtree | src/printable.rs:37-53 | `Plain(u)` becomes a subtree whose only `self` usage is `u`, with no wildcard and no children. A subtree is returned unchanged |
| Printable.AddUsage | src/printable.rs:55-64 | the same plain usage is a no-op. Otherwise the usages imported by the child are the old ones plus the new one, so distinct aliases are never collapsed |
| Printable.AddPath | src/printable.rs:105-140 | `add_path` keeps the tree's own `self` usages and leaves it non-empty |
| Printable.AddPathSemantics | src/printable.rs:105-140 | after `add_path` the tree imports exactly what it imported before plus the new path and leaf. Nothing is lost or overwritten |
| Printable.BecomeSubtreeItems | src/printable.rs:37-53 | turning a child into a subtree keeps everything it imported below itself |
| Printable.NewFromPath | src/printable.rs:95-102 | `new_from_path` builds a tree that imports exactly the one path and leaf |
| Printable.ItemTexts | src/printable.rs:145-163 | `items` yields one item per `self` usage, one for the wildcard if present, and one per child |
| Printable.ItemTextsOrder | src/printable.rs:145-163 | the items are, in this order: the `self` usages in ascending usage order, then `*` exactly when the tree has a wildcard, then the children in ascending name order, each printed as itself |
| Printable.TreeText | src/printable.rs:166-184 | exactly one item is printed without braces. Any other number of items is printed as `{`, each item followed by `, `, and `}` |
| Printable.JoinItemsSnoc | src/printable.rs:167-183 | the item list grows one item at a time: no items give nothing, and one more item appends it and `, ` |
| Printable.SingleChildText | src/printable.rs:166-184 | a tree whose only item is one child prints as that child, with no braces of its own |
| Printable.SinglePathText | src/printable.rs:166-184 | a tree holding a single import prints as that import's path, with no braces at any level |
| Printable.Locality | src/printable.rs:236-250 | `std`, `alloc` and `core` are standard library; `self`, `super` and `crate` are their own localities; every other root is a dependency |
| Printable.SortKeyForgets | src/printable.rs:236-265 | two keys have the same sort key iff they agree on configs, rootedness and root identifier, whatever their docs and visibility |
| Printable.LocalityOrder | src/printable.rs:273-289 | standard-library roots sort before all others, and `self` roots after all others |
| Printable.SortKeyLtStrictTotal | src/printable.rs:291-299 | the field-by-field order of the sort key is a strict total order |
| Printable.IsSpacedFrom | src/printable.rs:301-311 | two sort keys are spaced iff their localities differ or exactly one of their configs is empty |
| Printable.IsSpacedSymmetric | src/printable.rs:301-311 | spacing is symmetric, and no key is spaced from itself |
| Printable.GroupsContiguous | src/printable.rs:291-311 | in sort order, a key between two keys of the same group is in that group too |
| Printable.FormatUseItem | src/printable.rs:319-350 | a `use` item starts with its config lines and ends with `;` and a newline |
| Printable.FormatSingleImport | src/printable.rs:319-350 | a single import, with any configs and visibility, prints as its config lines, the visibility and a space if there is one, `use`, the optional `::`, its whole path and `;` |
| Printable.AddSingleUsedItemAsWritten | src/printable.rs:358-411 | the source's map, keyed in effect by the sort key. The entry takes the item; a root-level wildcard is a panic (`None`) |
| Printable.VisibilityLostAsWritten | src/printable.rs:261-265 | as written, `pub use std::fmt;` then `use std::io;` end up in one entry whose key is `pub`, and that entry imports `std::io` |
| Printable.AddSingleUsedItem | src/printable.rs:358-411 | keyed by the whole key, adding changes only the item's own entry; a root-level wildcard is a panic (`None`) |
| Printable.AddToChildSemantics | src/printable.rs:376-409 | after adding, the root's child imports what it imported before plus the item |
| Printable.AddSingleUsedItemSemantics | src/printable.rs:358-411 | after adding, each key's entry imports what it did before, and the item's own key also imports the item |
| Printable.VisibilityKept | src/printable.rs:358-411 | keyed by the whole key, `pub use std::fmt;` and `use std::io;` keep their own visibilities |
| Printable.PrintableKeyLtStrictTotal | src/printable.rs:226-233 | (corrected keying) ordering keys by sort key, then visibility, then docs is a strict total order, so two different keys never share a map entry |
| Printable.BuildFromUseItems | src/printable.rs:413-434 | (corrected keying) building succeeds iff no item is a root-level wildcard |
| Printable.BuildFromUseItemsSemantics | src/printable.rs:413-434 | (corrected keying) what gets printed under each key is exactly what was listed under that key |
| Printable.Display | src/printable.rs:437-463 | (corrected keying) the output is empty iff there are no entries |
| Printable.DisplayOne | src/printable.rs:439-449 | (corrected keying) a single entry prints as its own `use` item and nothing else |
| Printable.DisplaySnoc | src/printable.rs:451-461 | (corrected keying) with `last` the greatest key and `prev` the next one, the output is the output without `last`, then a blank line exactly when `last`'s sort key is spaced from `prev`'s, then `last`'s `use` item |
| Printable.DisplayListing | src/printable.rs:439-461 | (corrected keying) the entries are written in the one strictly ascending order of their keys |
| Printable.BlankLinesSeparateBlocks | src/printable.rs:437-463 | (corrected keying) in sorted order, the blank lines DisplaySnoc writes number one less than the (locality, has-configs) blocks, so each block is written contiguously and separated once |
| Printable.SpacedOpensBlock | src/printable.rs:445-458 | (corrected keying) in sorted order, a key spaced from the key before it starts a block that no earlier key belongs to |
| GitFile.GetIncr | src/gitfile.rs:37-42 | `get_incr` returns the current number and leaves the next one |
| GitFile.AnyLine | src/gitfile.rs:280-284 | the line and the tail make up the input. The line is a single physical line that ends in a newline unless the input ran out |
| GitFile.PhysicalLinesConcat | src/gitfile.rs:280-284 | cutting a text into lines with `parse_any_line` and joining them gives the text back |
| GitFile.PhysicalLinesOfConcat | src/gitfile.rs:280-284 | cutting joined complete lines gives those lines back |
| GitFile.ConflictPart | src/gitfile.rs:269-277 | a marker line is recognised exactly when the input starts with the chevrons |
| GitFile.ConflictPartIsOneLine | src/gitfile.rs:269-277 | a marker line consumes exactly one physical line |
| GitFile.Terminate | src/gitfile.rs:255-266 | a terminator consumes exactly one line, or the end of input; it never fails after a cut |
| GitFile.ParseHalf | src/gitfile.rs:292-329 | `parse_lines_terminated` never fails after a cut and never grows the input |
| GitFile.ParseHalfLines | src/gitfile.rs:292-329 | the lines before the terminator are the text's first physical lines, and the terminator takes one more |
| GitFile.ParseConflict | src/gitfile.rs:230-253 | a parsed conflict consumes input. The parse is a recoverable error exactly when the input does not start with `<<<<<<<`; after the header, the cut turns every failure into a hard failure |
| GitFile.HeaderCut | src/gitfile.rs:230-238 | input that opens a conflict but does not complete it fails hard, so the whole file fails to parse |
| GitFile.ConflictLayout | src/gitfile.rs:230-253 | a parsed conflict spans one header line, its left lines, one separator line, its right lines and one footer line |
| GitFile.ParseChunks | src/gitfile.rs:207-217 | the chunk loop never gives a recoverable error, and on success it consumes all input |
| GitFile.ParseChunksSlots | src/gitfile.rs:207-217 | the chunks of a parsed file occupy exactly its physical lines, and every content line is that physical line |
| GitFile.ParseChunksUnfold | src/gitfile.rs:207-217 | each chunk is a conflict where one parses, and a plain line otherwise |
| GitFile.NoHeaderParses | src/gitfile.rs:230-253 | a text with no line starting with `<<<<<<<` always parses |
| GitFile.ParseFile | src/gitfile.rs:82-84 | parsing succeeds exactly when the chunk loop does |
| GitFile.HalfWithLineNumber | src/gitfile.rs:189-203 | a half takes one number for its marker line and one per line, and keeps its name |
| GitFile.ConflictWithLineNumber | src/gitfile.rs:161-171 | a conflict takes one number per line plus three for its marker lines |
| GitFile.ConflictNumberingUnfold | src/gitfile.rs:161-171 | the left half is numbered after the header line, and the right half after the separator line |
| GitFile.ChunkWithLineNumber | src/gitfile.rs:146-153 | a chunk takes one number per physical line it occupies |
| GitFile.FromChunks | src/gitfile.rs:118-127 | `from_chunks` keeps one numbered chunk per chunk |
| GitFile.FromChunksKinds | src/gitfile.rs:118-127 | numbering keeps the kind of every chunk |
| GitFile.FromChunksNumbering | src/gitfile.rs:118-127 | on either side the lines are numbered by the physical line they occupy, in strictly increasing order |
| GitFile.ParsedLinesAreOriginal | src/gitfile.rs:82-127 | every line of either side of a parsed file carries the content of the physical line its number names, in increasing order |
| GitFile.BuildDerivedFile | src/gitfile.rs:103-116 | derived line `j` is mapped exactly for 1 ≤ j ≤ n, to the original number of the `j`-th line of the side |
| GitFile.Mappings | src/gitfile.rs:103-116 | zipping with `lines_iter` maps 1..n to the lines' own numbers |
| GitFile.MappingsLookup | src/gitfile.rs:348-350 | `get_original_line(j)` is the number of the `j`-th line, and `None` past the end |
| GitFile.DerivedFileTracesBack | src/gitfile.rs:103-116 | every line of a derived file maps back to the conflicted file's line with the same content |
| GitFile.NoConflictSameDerived | src/gitfile.rs:89-116 | a file without conflicts derives the same file on both sides |
| GitFile.NoConflictSidesAgree | src/gitfile.rs:89-101 | without conflict chunks, `get_lines` gives the same lines for both sides |
| GitFile.ContainsConflictIffHeader | src/gitfile.rs:133-137 | a parsed file contains a conflict iff one of its physical lines starts with `<<<<<<<` |
| WriteFile.WriteConflict | src/write_file.rs:55-80 | identical halves are written as the left lines only, with no markers. Otherwise both halves and three marker lines are written |
| WriteFile.WriteConflictRoundTrip | src/write_file.rs:55-80 | a written conflict whose halves differ parses back as the same conflict, names included, with the rest of the text untouched |
| WriteFile.FindSplitPoint | src/write_file.rs:115-123 | `find_split_point` is the position of the first line with that number, or `None` iff no line has it |
| WriteFile.TrySplitConflict | src/write_file.rs:141-194 | the split succeeds iff the point is `IntoConflict` and both numbers occur in their halves. Each half is then top, split line, bottom, with its name kept |
| WriteFile.FirstMatching | src/write_file.rs:196-204 | the result is the number of the first discarded line, or `None` iff no line is discarded |
| WriteFile.FirstMatchingNumbers | src/write_file.rs:196-204 | the result is one of the half's own line numbers, and it is `None` iff the half has no discarded number |
| WriteFile.FindInsertPointSound | src/write_file.rs:206-242 | the insert point names only discarded lines of the file, and is `Nowhere` iff no line is discarded |
| WriteFile.FindInsertPointFirstStop | src/write_file.rs:211-235 | the first chunk that is a discarded plain line, or a conflict with a discarded line on each side, decides the insert point |
| WriteFile.FindInsertPointNoStop | src/write_file.rs:211-242 | with no such chunk, the insert point combines the first discarded left-side line and the first discarded right-side line of the conflicts |
| WriteFile.FindInsertPointLoop | src/write_file.rs:206-242 | the loop with early returns computes the same insert point, with the same soundness and `Nowhere` iff |
| WriteFile.FilteredNothing | src/write_file.rs:82-93 | with nothing discarded, filtering keeps every line's content in order |
| WriteFile.InjectAway | src/write_file.rs:95-113 | where no line is an insert-point line, injecting is filtering |
| WriteFile.NoSplitAway | src/write_file.rs:141-194 | a conflict none of whose lines is an insert-point line is not split |
| WriteFile.WriteUntilInsertedLoop | src/write_file.rs:282-328 | the first loop writes a prefix of the output and reports where the second loop resumes |
| WriteFile.WriteRestLoop | src/write_file.rs:330-344 | the second loop writes every remaining chunk filtered |
| WriteFile.WriteCorrectedFileLoop | src/write_file.rs:245-347 | the two loops over one iterator write exactly the corrected file |
| WriteFile.WriteNothingDiscarded | src/write_file.rs:245-347 | with no line discarded the imports are never written, and the file is written back unchanged. Conflicts with identical halves are collapsed |
| WriteFile.SplitTopClean | src/write_file.rs:148-191 | a conflict with a discarded line on each side splits at the first one of each side, and neither top part holds a discarded line |
| WriteFile.HalfTopClean | src/write_file.rs:148-191 | the part of a half before its first discarded line holds no discarded line |
| WriteFile.WriteAtPlainLine | src/write_file.rs:282-289 | when the first stop is a discarded plain line, the imports are written once, in that line's place. Every other plain line is written iff not discarded, in order |
| WriteFile.WriteIntoConflict | src/write_file.rs:291-320 | when the first stop is a conflict, that conflict is split, and the imports are written once between the filtered top and bottom conflicts. Everything else is filtered |
| WriteFile.WriteNoStop | src/write_file.rs:282-328 | with no stop, every conflict is written with the imports in place of its insert-point line, and every plain line is filtered |
| WriteFile.ParsedNumbersDistinct | src/gitfile.rs:118-127 | a parsed file numbers all its lines, on both sides of every conflict, differently |
| WriteFile.FromChunksAllIncreasing | src/gitfile.rs:118-127 | numbering gives every line, on both sides of every conflict, a number above the starting one, strictly increasing in chunk order |
| State.Push | src/state.rs:18-20 | `push` appends the line |
| State.FlushTo | src/state.rs:22-25 | `flush_to` appends the buffered lines to `dest` in order and empties the buffer |
| State.Discard | src/state.rs:27-29 | `discard` empties the buffer |
| State.PushAllFlush | src/state.rs:18-25 | pushed lines are flushed in push order, none lost and none repeated |
| State.DiscardThenFlush | src/state.rs:22-29 | after `discard` nothing is flushed |
| State.LastNonBlank | src/state.rs:33-38 | the position of the last line that is not blank after trimming, or `None` iff all lines are blank |
| State.DiscardBlockAsWritten | src/state.rs:32-41 | as written, the result is a suffix that starts at the last non-blank line, followed only by blank lines. It is empty iff all lines are blank |
| State.DiscardBlockKeepsLastCode | src/state.rs:31-41 | when some line is not blank, the code keeps exactly the last non-blank line more than the documented behaviour |
| State.DiscardBlockExample | src/state.rs:31-41 | `["use a;\n", "\n"]` keeps both lines as written, and only `"\n"` as documented |
| State.DiscardBlock | src/state.rs:31 | as documented, the result is the longest suffix of blank lines |
| State.StackTop | src/state.rs:87-89 | `top` is the newest frame, or `Top` for an empty stack |
| State.StackPush | src/state.rs:92-94 | `push` appends the frame |
| State.PushThenTop | src/state.rs:87-94 | a pushed frame is the top |
| State.InBlock | src/state.rs:98-102 | `in_block` holds iff some frame is a block start |
| State.IsRooted | src/state.rs:108-117 | `rooted` holds iff the oldest separator-or-identifier frame is a separator |
| State.PathOfAppend | src/state.rs:122-132 | pushing a non-`self` identifier extends the path by it, and pushing any other frame leaves the path unchanged |
| State.PathOfMembers | src/state.rs:122-132 | the path holds exactly the identifier frames other than `self` |
| State.InPath | src/state.rs:145-147 | `in_path` holds iff the path is non-empty, iff some frame is a non-`self` identifier |
| State.RootedPath | src/state.rs:134-139 | the root is the rooted flag and the first path identifier, and the rest of the path follows it; with an empty path the result is `None` |
| State.PopToBlockStart | src/state.rs:151-160 | the result is a prefix ending at, and keeping, the newest block start, or the empty stack outside a block |
| State.EndBlock | src/state.rs:165-173 | the result is the prefix strictly before the newest block start, or the empty stack outside a block |
| State.PopToBlockStartIdempotent | src/state.rs:151-160 | popping to the block start twice is popping once |
| State.EndBlockAfterPop | src/state.rs:151-173 | ending a block is popping to its start and then dropping it |
| State.BlockScoped | src/state.rs:151-173 | after a block start and frames that open no block, popping returns to just after the start, and ending the block restores the stack from before it |
| State.FinishUseItem | src/state.rs:197-201 | the current item, if any, is appended to `uses` and cleared; the stack is unchanged |
| State.StartUseItem | src/state.rs:192-195 | starting finishes the current item first, then begins a fresh item with the given visibility |
| State.FinishUseItemIdempotent | src/state.rs:197-201 | finishing twice adds no item twice |
| State.StartAllFinish | src/state.rs:192-201 | items started one after another and then finished are all kept, in order |
| Parsers.SpanOf | src/parsers.rs:29-33 | the split is the end of the longest prefix of matching characters |
| Parsers.ParseNormalIdentifier | src/parsers.rs:22-61 | the identifier and the tail make up the input. The identifier is an XID_Start character, or `_` followed by more, and then XID_Continue characters. The tail cannot continue it. A failure means the maximal prefix is not an identifier |
| Parsers.NormalIdentifierRoundTrip | src/parsers.rs:22-61 | an identifier followed by text that cannot continue it parses back to exactly that identifier |
| Parsers.NormalIdentifierSucceeds | src/parsers.rs:37-58 | parsing succeeds iff the input starts with XID_Start, or with `_` followed by an XID_Continue character |
| Parsers.LoneUnderscoreFails | src/parsers.rs:47-55 | a lone `_` is not an identifier |
| Parsers.ParseIdentifier | src/parsers.rs:64-84 | after `r#`, parsing succeeds iff an identifier follows, and the result keeps the prefix with no retry without it. Without `r#` it is the plain identifier parse |
| Parsers.RawIdentifierRoundTrip | src/parsers.rs:64-84 | `r#` plus an identifier parses back to itself, prefix included |
| Parsers.SnipWhitespace | src/parsers.rs:90-96 | the whitespace and the rest make up the input. The whitespace is all whitespace, and the rest does not start with whitespace |
| Parsers.SnipWhitespaceUnique | src/parsers.rs:90-96 | the split is the only one with those properties |
| Parsers.SnipWhitespaceIdempotent | src/parsers.rs:90-96 | snipping what is left finds no whitespace |
| DocPrint.ContainsBalancedBlocks | src/docprint.rs:46-73 | the one-pass `u32` depth counter returns true iff the `/*` and `*/` tokens, scanned left to right without overlap, never close below zero, never nest past the largest `u32`, and end at depth zero |
| DocPrint.NoMarkersBalanced | src/docprint.rs:46-73 | text with no `/*` and no `*/` is balanced |
| DocPrint.CloseFirstUnbalanced | src/docprint.rs:60-64 | a `*/` at depth zero makes the text unbalanced |
| DocPrint.CategorizeDoc | src/docprint.rs:32-43 | a doc without a newline is a single line. One with a newline is a block iff it is balanced, and an attribute otherwise |
| DocPrint.Categorize | src/docprint.rs:32-43 | the same, with the balance decided by the scan |
| DocPrint.RenderBlock | src/docprint.rs:13-17 | every rendered block ends with a newline |
| DocPrint.UnescapeEscaped | src/docprint.rs:16 | reading back the `{:?}` escaping of the attribute form gives the text back |
| DocPrint.RenderBlockRoundTrip | src/docprint.rs:13-17 | a rendered block reads back as its category and its text: `///` and the text up to the newline, `/**` and the text up to `*/`, or the unescaped string of `#[doc = "…"]` |
| DocPrint.RenderDocs | src/docprint.rs:9-18 | one rendered block per doc block, in order, and each reads back as its own block in the form its category chooses |
| DocPrint.SingleLineIsOneLine | src/docprint.rs:14 | a single-line doc renders as `///` and the text on exactly one line |
| DocPrint.AttributeIsOneLine | src/docprint.rs:16 | the attribute form holds no raw newline before its final one |

## Left out

- Process I/O, threads and the external `rustfmt`/`prettyplease` re-parse. These are concurrency and foreign code, and are not part of this model.
- `io::Write` and `fmt::Write` errors. Writing is appending to a sequence and cannot fail.
- The contents and positions of nom errors (`ErrorTree`, `Location`). A parse yields a value, a recoverable error, or a failure after a cut.
- The Unicode XID_Start and XID_Continue tables. They are a parameter, constrained only by XID_Start ⊆ XID_Continue and the facts about `_`.
- Bytes and characters are not distinguished: text is a sequence of characters, and the byte scans of `docprint.rs` and `write_file.rs` are read over characters.
- GitFile.GetIncr: the `NonZeroUsize` overflow panic of `get_incr` is not modelled, because line numbers are unbounded integers.
- DocPrint.DebugStr: `{:?}` escaping covers quotes, backslashes, `\n`, `\r`, `\t` and NUL. Rust's `\u{..}` escapes of other non-printable characters are not modelled.
- `DocsList` and `ConfigsList` are not shown in the source. A configs list is a sequence of strings ordered lexicographically, with the empty list as `EMPTY`. `DocsList::combine`, `configs()` and `blocks()` are not shown either. A property group keeps every docs list merged into it, in merge order.
- `Visibility`'s `Display` is not shown in the source. It is rendered in Rust's surface syntax (`pub`, `pub(crate)`, `pub(in a::b)`, ...).
- `build_from_use_items` and `Display for PrintableUseItems` are modelled only over the corrected map, keyed by the whole key; the rows marked "(corrected keying)" describe that map, not the source's merged entries.
- The order between keys that share a sort key (by visibility, then docs) is a choice of the corrected model: the source's `Ord` does not define one.
- `UseItem::new` is not shown in the source. Tree.NewUseItem builds an item with the given visibility and nothing else.
- `PrintableChild::become_subtree`, `add_usage` and `add_path` return or mutate in place in the source. Here they are functions returning the new value.
- `LineNumber::from_one_indexed`, the `chunks` accessor and the `map_lines`/`from_conflict` adapters are plain data plumbing and are folded into the functions that use them.

## Findings

| source | as written | input that shows it | evidently intended | confidence | as-written member | corrected member |
|---|---|---|---|---|---|---|
| src/printable.rs:261-265 | `Ord for PrintableKey` compares only `sort_key()`, which leaves out docs and visibility, while `Eq` compares every field. `BTreeMap::entry` therefore merges items that differ only in docs or visibility into the entry of whichever key came first | `pub use std::fmt;` then `use std::io;`: both land in the `pub` entry, so `std::io` is re-exported | items with different docs or visibility are printed as separate `use` items, each keeping its own attributes | medium, not executed | Printable.AddSingleUsedItemAsWritten, Printable.VisibilityLostAsWritten | Printable.AddSingleUsedItem, Printable.AddSingleUsedItemSemantics, Printable.VisibilityKept, Printable.PrintableKeyLtStrictTotal, Printable.BuildFromUseItems, Printable.BuildFromUseItemsSemantics, Printable.Display, Printable.DisplaySnoc |
| src/state.rs:31-41 | `discard_block` drains `..point`, where `point` is the `rposition` of the last non-blank line. The last non-blank line is kept, and an all-blank buffer is emptied | buffer `["use a;\n", "\n"]` keeps `"use a;\n"` | discard every line except the trailing blank ones, as the doc comment says; `pop_to_block_start` (src/state.rs:151-160) adds 1 to its `rposition` for the same purpose | medium, not executed | State.DiscardBlockAsWritten, State.DiscardBlockExample, State.DiscardBlockKeepsLastCode | State.DiscardBlock |
