/**
 How the doc blocks attached to a `use` item are printed: as `///` line
 comments, as a `/** */` block comment, or as a `#[doc = "..."]` attribute
 when a block comment could not hold the text.
 */
module DocPrint {
  import opened Common

  datatype DocCategory = SingleLine | Block | Attribute

  /** The marker tokens of comment nesting, as found scanning left to right. */
  datatype Marker = Open | Close

  /** The `/*` and `*/` markers of `s`, scanned left to right; the two characters of a marker are never reused. */
  function Markers(s: string): seq<Marker>
    decreases |s|
  {
    if |s| < 2 then []
    else if s[0] == '/' && s[1] == '*' then [Open] + Markers(s[2..])
    else if s[0] == '*' && s[1] == '/' then [Close] + Markers(s[2..])
    else Markers(s[1..])
  }

  /** Opened minus closed comments. */
  function Depth(ms: seq<Marker>): int {
    if |ms| == 0 then 0 else Depth(ms[..|ms| - 1]) + (if ms[|ms| - 1] == Open then 1 else -1)
  }

  /** The largest value of a `u32`: `depth.checked_add(1)` fails past it. */
  const U32Max: int := 0xFFFF_FFFF

  /**
   Balanced markers: no prefix closes more comments than it opened, none
   nests deeper than a `u32` counts, and the whole opens as many as it closes.
   */
  predicate Balanced(ms: seq<Marker>) {
    && (forall k :: 0 <= k <= |ms| ==> 0 <= Depth(ms[..k]) <= U32Max)
    && Depth(ms) == 0
  }

  /** The markers of a string that has both characters of the marker at its front. */
  lemma MarkersStep(s: string, i: nat)
    requires i + 1 < |s|
    ensures s[i] == '/' && s[i + 1] == '*' ==> Markers(s[i..]) == [Open] + Markers(s[i + 2..])
    ensures !(s[i] == '/' && s[i + 1] == '*') && s[i] == '*' && s[i + 1] == '/' ==> Markers(s[i..]) == [Close] + Markers(s[i + 2..])
    ensures !(s[i] == '/' && s[i + 1] == '*') && !(s[i] == '*' && s[i + 1] == '/') ==> Markers(s[i..]) == Markers(s[i + 1..])
  {
    assert s[i..][2..] == s[i + 2..] && s[i..][1..] == s[i + 1..];
  }

  lemma DepthAppend(ms: seq<Marker>, m: Marker)
    ensures Depth(ms + [m]) == Depth(ms) + (if m == Open then 1 else -1)
  {
    assert (ms + [m])[..|ms|] == ms;
  }

  /** Consuming a two-character marker at `i` moves it from the unscanned markers to the seen ones. */
  lemma MarkerStep(comment: string, i: nat, seen: seq<Marker>, m: Marker)
    requires i + 1 < |comment|
    requires m == Open ==> comment[i] == '/' && comment[i + 1] == '*'
    requires m == Close ==> !(comment[i] == '/' && comment[i + 1] == '*') && comment[i] == '*' && comment[i + 1] == '/'
    requires seen + Markers(comment[i..]) == Markers(comment)
    ensures (seen + [m]) + Markers(comment[i + 2..]) == Markers(comment)
  {
    MarkersStep(comment, i);
    Shift(seen, Markers(comment[i..]), m, Markers(comment[i + 2..]), Markers(comment));
  }

  /** Moving the head of the unscanned part onto the scanned part keeps the whole. */
  lemma Shift<T>(seen: seq<T>, rest: seq<T>, m: T, next: seq<T>, all: seq<T>)
    requires seen + rest == all && rest == [m] + next
    ensures (seen + [m]) + next == all
  {
  }

  /** A character that starts no marker is skipped. */
  lemma SkipStep(comment: string, i: nat, seen: seq<Marker>)
    requires i < |comment|
    requires !(i + 1 < |comment| && comment[i] == '/' && comment[i + 1] == '*')
    requires !(i + 1 < |comment| && comment[i] == '*' && comment[i + 1] == '/')
    requires seen + Markers(comment[i..]) == Markers(comment)
    ensures seen + Markers(comment[i + 1..]) == Markers(comment)
  {
    if i + 1 < |comment| {
      MarkersStep(comment, i);
    } else {
      assert Markers(comment[i..]) == [] && Markers(comment[i + 1..]) == [];
    }
  }

  /**
   `contains_balanced_blocks`: one pass keeping a `u32` nesting depth; a
   close at depth zero, or an open past the largest `u32`, fails at once.
   */
  method ContainsBalancedBlocks(comment: string) returns (r: bool)
    ensures r <==> Balanced(Markers(comment))
  {
    var depth := 0;
    var i := 0;
    ghost var seen: seq<Marker> := [];
    while i < |comment|
      invariant 0 <= i <= |comment|
      invariant seen + Markers(comment[i..]) == Markers(comment)
      invariant depth == Depth(seen)
      invariant forall k :: 0 <= k <= |seen| ==> 0 <= Depth(seen[..k]) <= U32Max
    {
      if i + 1 < |comment| && comment[i] == '/' && comment[i + 1] == '*' {
        MarkerStep(comment, i, seen, Open);
        DepthAppend(seen, Open);
        if depth + 1 > U32Max {
          NotBalancedAt(seen, Open, Markers(comment[i + 2..]));
          return false;
        }
        PrefixesExtend(seen, Open);
        seen := seen + [Open];
        depth := depth + 1;
        i := i + 2;
      } else if i + 1 < |comment| && comment[i] == '*' && comment[i + 1] == '/' {
        MarkerStep(comment, i, seen, Close);
        DepthAppend(seen, Close);
        if depth == 0 {
          NotBalancedAt(seen, Close, Markers(comment[i + 2..]));
          return false;
        }
        PrefixesExtend(seen, Close);
        seen := seen + [Close];
        depth := depth - 1;
        i := i + 2;
      } else {
        SkipStep(comment, i, seen);
        i := i + 1;
      }
    }
    assert comment[i..] == [];
    assert seen == Markers(comment);
    r := depth == 0;
  }

  /** A prefix that steps out of range cannot be part of a balanced sequence. */
  lemma NotBalancedAt(seen: seq<Marker>, m: Marker, rest: seq<Marker>)
    requires Depth(seen + [m]) < 0 || Depth(seen + [m]) > U32Max
    ensures !Balanced(seen + [m] + rest)
  {
    var all := seen + [m] + rest;
    assert all[..|seen| + 1] == seen + [m];
  }

  /** A marker that keeps the depth in range extends a sequence whose prefixes all stay in range. */
  lemma PrefixesExtend(seen: seq<Marker>, m: Marker)
    requires forall k :: 0 <= k <= |seen| ==> 0 <= Depth(seen[..k]) <= U32Max
    requires 0 <= Depth(seen + [m]) <= U32Max
    ensures forall k :: 0 <= k <= |seen + [m]| ==> 0 <= Depth((seen + [m])[..k]) <= U32Max
  {
    forall k | 0 <= k <= |seen + [m]| ensures 0 <= Depth((seen + [m])[..k]) <= U32Max {
      if k <= |seen| {
        assert (seen + [m])[..k] == seen[..k];
      } else {
        assert (seen + [m])[..k] == seen + [m];
      }
    }
  }

  /** Text with no `/*` and no `*/` in it has no markers, and so is balanced. */
  lemma {:induction false} NoMarkersBalanced(s: string)
    requires forall i :: 0 <= i < |s| - 1 ==> !(s[i] == '/' && s[i + 1] == '*') && !(s[i] == '*' && s[i + 1] == '/')
    ensures Markers(s) == []
    ensures Balanced(Markers(s))
    decreases |s|
  {
    if |s| >= 2 {
      var t := s[1..];
      forall i | 0 <= i < |t| - 1
        ensures !(t[i] == '/' && t[i + 1] == '*') && !(t[i] == '*' && t[i + 1] == '/')
      {
        assert t[i] == s[i + 1] && t[i + 1] == s[i + 2];
      }
      NoMarkersBalanced(s[1..]);
    }
  }

  /** Text that starts by closing a comment is never balanced. */
  lemma CloseFirstUnbalanced(s: string)
    requires |s| >= 2 && s[0] == '*' && s[1] == '/'
    ensures !Balanced(Markers(s))
  {
    var ms := Markers(s);
    assert ms == [Close] + Markers(s[2..]);
    assert ms[..1] == [Close];
    assert Depth(ms[..1]) == -1;
  }

  /** `categorize_doc`. */
  function CategorizeDoc(doc: string, balanced: bool): (r: DocCategory)
    ensures '\n' !in doc <==> r == SingleLine
    ensures '\n' in doc ==> (r == Block <==> balanced)
    ensures r == Attribute <==> '\n' in doc && !balanced
  {
    if '\n' in doc then
      if balanced then Block else Attribute
    else SingleLine
  }

  /** `categorize_doc`, deciding the balance with `contains_balanced_blocks`. */
  method Categorize(doc: string) returns (r: DocCategory)
    ensures '\n' !in doc <==> r == SingleLine
    ensures '\n' in doc ==> (r == Block <==> Balanced(Markers(doc)))
    ensures r == CategorizeDoc(doc, Balanced(Markers(doc)))
  {
    if '\n' in doc {
      var balanced := ContainsBalancedBlocks(doc);
      r := if balanced then Block else Attribute;
    } else {
      r := SingleLine;
    }
  }

  /**
   Rust's `{:?}` for a string: in double quotes, with `"`, `\`, and the
   tab, carriage-return, newline and NUL characters written as escapes.
   */
  function DebugStr(s: string): (r: string)
    ensures |r| >= 2 && r[0] == '"' && r[|r| - 1] == '"'
    ensures '\n' !in r
  {
    "\"" + Escaped(s) + "\""
  }

  function EscapeChar(c: char): (r: string)
    ensures '\n' !in r && |r| > 0
  {
    match c
    case '"' => "\\\""
    case '\\' => "\\\\"
    case '\n' => "\\n"
    case '\r' => "\\r"
    case '\t' => "\\t"
    case '\0' => "\\0"
    case _ => [c]
  }

  function Escaped(s: string): (r: string)
    ensures '\n' !in r
    ensures |r| >= |s|
  {
    if |s| == 0 then "" else EscapeChar(s[0]) + Escaped(s[1..])
  }

  /** One doc block, as written by `Display for DocsList`. */
  function RenderBlock(block: string, category: DocCategory): (r: string)
    ensures |r| > 0 && r[|r| - 1] == '\n'
  {
    match category
    case SingleLine => "///" + block + "\n"
    case Block => "/**" + block + "*/\n"
    case Attribute => "#[doc = " + DebugStr(block) + "]\n"
  }

  /** The character a backslash escape stands for. */
  function UnescapeChar(c: char): char {
    match c
    case 'n' => '\n'
    case 'r' => '\r'
    case 't' => '\t'
    case '0' => '\0'
    case _ => c
  }

  /** Reading a string literal's body back: each backslash and the character after it stand for one character. */
  function Unescape(s: string): string
    decreases |s|
  {
    if |s| == 0 then ""
    else if s[0] == '\\' && |s| >= 2 then [UnescapeChar(s[1])] + Unescape(s[2..])
    else [s[0]] + Unescape(s[1..])
  }

  /** An escaped character reads back as itself, whatever follows it. */
  lemma UnescapeCons(c: char, rest: string)
    ensures Unescape(EscapeChar(c) + rest) == [c] + Unescape(rest)
  {
    var e := EscapeChar(c) + rest;
    if c in {'"', '\\', '\n', '\r', '\t', '\0'} {
      assert e[0] == '\\' && |e| >= 2 && e[2..] == rest;
    } else {
      assert EscapeChar(c) == [c];
      assert e[0] == c && e[1..] == rest;
    }
  }

  /** Escaping then reading back gives the original text. */
  lemma {:induction false} UnescapeEscaped(s: string)
    ensures Unescape(Escaped(s)) == s
    decreases |s|
  {
    if |s| > 0 {
      UnescapeCons(s[0], Escaped(s[1..]));
      UnescapeEscaped(s[1..]);
      assert s == [s[0]] + s[1..];
    }
  }

  /**
   How a rendered doc line reads back: `///` and the text up to the newline,
   `/**` and the text up to `*/`, or the unescaped string of a `doc` attribute.
   */
  function Unrender(r: string): Option<(DocCategory, string)> {
    if |r| >= 4 && r[..3] == "///" && r[|r| - 1] == '\n' then Some((SingleLine, r[3..|r| - 1]))
    else if |r| >= 6 && r[..3] == "/**" && r[|r| - 3..] == "*/\n" then Some((Block, r[3..|r| - 3]))
    else if |r| >= 12 && r[..9] == "#[doc = \"" && r[|r| - 3..] == "\"]\n" then Some((Attribute, Unescape(r[9..|r| - 3])))
    else None
  }

  /** A rendered block reads back as the same block, in the same form. */
  lemma RenderBlockRoundTrip(block: string, category: DocCategory)
    ensures Unrender(RenderBlock(block, category)) == Some((category, block))
  {
    match category
    case SingleLine => SingleLineRoundTrip(block);
    case Block => BlockRoundTrip(block);
    case Attribute => AttributeRoundTrip(block);
  }

  lemma SingleLineRoundTrip(block: string)
    ensures Unrender(RenderBlock(block, SingleLine)) == Some((SingleLine, block))
  {
    var r := RenderBlock(block, SingleLine);
    assert r[..3] == "///" && r[3..|r| - 1] == block;
  }

  lemma BlockRoundTrip(block: string)
    ensures Unrender(RenderBlock(block, Block)) == Some((Block, block))
  {
    var r := RenderBlock(block, Block);
    assert r[..3] == "/**" && r[2] == '*';
    assert r[|r| - 3..] == "*/\n" && r[3..|r| - 3] == block;
  }

  lemma AttributeRoundTrip(block: string)
    ensures Unrender(RenderBlock(block, Attribute)) == Some((Attribute, block))
  {
    var r := RenderBlock(block, Attribute);
    var e := Escaped(block);
    assert r == "#[doc = \"" + e + "\"]\n";
    assert r[0] == '#';
    assert r[..9] == "#[doc = \"" && r[|r| - 3..] == "\"]\n" && r[9..|r| - 3] == e;
    UnescapeEscaped(block);
  }

  /** Every block of a docs list, rendered in its own category, reads back as itself. */
  lemma RenderBlocksRoundTrip(blocks: seq<string>)
    ensures forall i :: 0 <= i < |blocks| ==>
      Unrender(RenderBlock(blocks[i], CategorizeDoc(blocks[i], Balanced(Markers(blocks[i]))))) ==
        Some((CategorizeDoc(blocks[i], Balanced(Markers(blocks[i]))), blocks[i]))
  {
    forall i | 0 <= i < |blocks|
      ensures Unrender(RenderBlock(blocks[i], CategorizeDoc(blocks[i], Balanced(Markers(blocks[i]))))) ==
        Some((CategorizeDoc(blocks[i], Balanced(Markers(blocks[i]))), blocks[i]))
    {
      RenderBlockRoundTrip(blocks[i], CategorizeDoc(blocks[i], Balanced(Markers(blocks[i]))));
    }
  }

  /**
   `Display for DocsList`: each block in order, categorised and rendered on
   its own; every rendered line reads back as its block, in its category.
   */
  function RenderDocs(docs: DocsList): (r: seq<string>)
    ensures |r| == |docs.blocks|
    ensures forall i :: 0 <= i < |r| ==> r[i] == RenderBlock(docs.blocks[i], CategorizeDoc(docs.blocks[i], Balanced(Markers(docs.blocks[i]))))
    ensures forall i :: 0 <= i < |r| ==>
      Unrender(r[i]) == Some((CategorizeDoc(docs.blocks[i], Balanced(Markers(docs.blocks[i]))), docs.blocks[i]))
  {
    RenderBlocksRoundTrip(docs.blocks);
    seq(|docs.blocks|, i requires 0 <= i < |docs.blocks| => RenderBlock(docs.blocks[i], CategorizeDoc(docs.blocks[i], Balanced(Markers(docs.blocks[i])))))
  }

  /** A single-line block is written as one line: its only newline is the one that ends it. */
  lemma SingleLineIsOneLine(block: string)
    requires '\n' !in block
    ensures RenderBlock(block, CategorizeDoc(block, Balanced(Markers(block)))) == "///" + block + "\n"
    ensures forall i :: 0 <= i < |"///" + block + "\n"| - 1 ==> ("///" + block + "\n")[i] != '\n'
  {
    var r := "///" + block + "\n";
    forall i | 0 <= i < |r| - 1 ensures r[i] != '\n' {
      if 3 <= i {
        assert r[i] == block[i - 3];
      }
    }
  }

  /** An attribute is written as one line too: the escaping leaves no raw newline inside it. */
  lemma AttributeIsOneLine(block: string)
    ensures '\n' !in ("#[doc = " + DebugStr(block) + "]")
  {
  }
}
