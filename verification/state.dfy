/**
 Parser state helpers: the buffer of source lines seen since the last
 decision to keep or drop them, the stack of parse frames that tracks where
 inside a `use` item the parser is, and the item being built.
 */
module State {
  import opened Common
  import opened Tree

  // ---------------------------------------------------------------------
  // LinesBuffer

  /** The lines recorded since the buffer was last flushed or discarded, oldest first. */
  datatype LinesBuffer = LinesBuffer(lines: seq<string>)

  const EmptyBuffer := LinesBuffer([])

  /** `LinesBuffer::push`. */
  function Push(b: LinesBuffer, line: string): (r: LinesBuffer)
    ensures |r.lines| == |b.lines| + 1 && r.lines[..|b.lines|] == b.lines && r.lines[|b.lines|] == line
  {
    LinesBuffer(b.lines + [line])
  }

  /** `LinesBuffer::flush_to`: the buffered lines go to the end of `dest`, and the buffer is left empty. */
  function FlushTo(b: LinesBuffer, dest: seq<string>): (r: (LinesBuffer, seq<string>))
    ensures r.0 == EmptyBuffer
    ensures |r.1| == |dest| + |b.lines| && r.1[..|dest|] == dest && r.1[|dest|..] == b.lines
  {
    (EmptyBuffer, dest + b.lines)
  }

  /** `LinesBuffer::discard`. */
  function Discard(b: LinesBuffer): (r: LinesBuffer)
    ensures r.lines == []
  {
    EmptyBuffer
  }

  /** The buffer after pushing each of `lines` in turn. */
  function PushAll(b: LinesBuffer, lines: seq<string>): LinesBuffer
    decreases |lines|
  {
    if |lines| == 0 then b else PushAll(Push(b, lines[0]), lines[1..])
  }

  /** Pushed lines are flushed in the order they were pushed, none lost and none repeated. */
  lemma {:induction false} PushAllFlush(b: LinesBuffer, lines: seq<string>, dest: seq<string>)
    ensures FlushTo(PushAll(b, lines), dest) == (EmptyBuffer, dest + b.lines + lines)
    decreases |lines|
  {
    if |lines| > 0 {
      assert PushAll(b, lines) == PushAll(Push(b, lines[0]), lines[1..]);
      assert Push(b, lines[0]).lines == b.lines + [lines[0]];
      PushAllFlush(Push(b, lines[0]), lines[1..], dest);
      assert b.lines + [lines[0]] + lines[1..] == b.lines + lines;
      assert dest + (b.lines + [lines[0]]) + lines[1..] == dest + b.lines + lines;
    } else {
      assert dest + b.lines + lines == dest + b.lines;
    }
  }

  /** Whatever was pushed, discarding leaves nothing to flush. */
  lemma DiscardThenFlush(b: LinesBuffer, dest: seq<string>)
    ensures FlushTo(Discard(b), dest) == (EmptyBuffer, dest)
  {
    assert dest + [] == dest;
  }

  /** The position of the last line that is not blank, if any (`rposition` over trimmed lines). */
  function LastNonBlank(lines: seq<string>): (r: Option<nat>)
    ensures r.Some? ==> r.value < |lines| && !IsBlank(lines[r.value])
    ensures r.Some? ==> forall i :: r.value < i < |lines| ==> IsBlank(lines[i])
    ensures r.None? <==> forall i :: 0 <= i < |lines| ==> IsBlank(lines[i])
    decreases |lines|
  {
    if |lines| == 0 then None
    else if !IsBlank(lines[|lines| - 1]) then Some(|lines| - 1)
    else LastNonBlank(lines[..|lines| - 1])
  }

  /**
   `LinesBuffer::discard_block` as written: everything before the last
   non-blank line is dropped, so that line and the blank lines after it are
   kept; with no non-blank line, everything is dropped.
   */
  function DiscardBlockAsWritten(b: LinesBuffer): (r: LinesBuffer)
    ensures |r.lines| <= |b.lines| && r.lines == b.lines[|b.lines| - |r.lines|..]
    ensures |r.lines| > 0 ==> !IsBlank(r.lines[0]) && forall i :: 0 < i < |r.lines| ==> IsBlank(r.lines[i])
    ensures |r.lines| == 0 <==> forall i :: 0 <= i < |b.lines| ==> IsBlank(b.lines[i])
  {
    var point := match LastNonBlank(b.lines) case Some(p) => p case None => |b.lines|;
    LinesBuffer(b.lines[point..])
  }

  /**
   `LinesBuffer::discard_block` as its documentation describes it: every line
   is dropped except the longest suffix of blank lines.
   */
  function DiscardBlock(b: LinesBuffer): (r: LinesBuffer)
    ensures |r.lines| <= |b.lines| && r.lines == b.lines[|b.lines| - |r.lines|..]
    ensures forall i :: 0 <= i < |r.lines| ==> IsBlank(r.lines[i])
    ensures |r.lines| < |b.lines| ==> !IsBlank(b.lines[|b.lines| - |r.lines| - 1])
  {
    var point := match LastNonBlank(b.lines) case Some(p) => p + 1 case None => 0;
    LinesBuffer(b.lines[point..])
  }

  /**
   Whenever some buffered line is not blank, the code keeps one line more
   than its documentation says: the last non-blank line itself.
   */
  lemma DiscardBlockKeepsLastCode(b: LinesBuffer)
    requires exists i :: 0 <= i < |b.lines| && !IsBlank(b.lines[i])
    ensures DiscardBlockAsWritten(b).lines == [b.lines[LastNonBlank(b.lines).value]] + DiscardBlock(b).lines
  {
    var p := LastNonBlank(b.lines).value;
    assert b.lines[p..] == [b.lines[p]] + b.lines[p + 1..];
  }

  /** A concrete buffer: a `use` line followed by a blank line keeps the `use` line as written. */
  lemma DiscardBlockExample()
    ensures DiscardBlockAsWritten(LinesBuffer(["use a;\n", "\n"])).lines == ["use a;\n", "\n"]
    ensures DiscardBlock(LinesBuffer(["use a;\n", "\n"])).lines == ["\n"]
  {
    var lines := ["use a;\n", "\n"];
    assert IsBlank(lines[1]);
    assert !IsWhitespace(lines[0][0]);
    assert !IsBlank(lines[0]);
    assert LastNonBlank(lines) == Some(0);
  }

  // ---------------------------------------------------------------------
  // ParseStack

  /** `ParseFrame`: named after the most recent thing parsed that still expects more after it. */
  datatype ParseFrame =
    | TopFrame
    | UseFrame
    | PathSeparatorFrame
    | IdentifierFrame(ident: string)
    | WildcardFrame
    | BlockStartFrame
    | BlockFrame

  /** The frames, oldest first. */
  datatype ParseStack = ParseStack(frames: seq<ParseFrame>)

  /** `ParseStack::top`: the newest frame, or `Top` for an empty stack. */
  function StackTop(s: ParseStack): (r: ParseFrame)
    ensures |s.frames| == 0 ==> r == TopFrame
    ensures |s.frames| > 0 ==> r == s.frames[|s.frames| - 1]
  {
    if |s.frames| == 0 then TopFrame else s.frames[|s.frames| - 1]
  }

  /** `ParseStack::push`. */
  function StackPush(s: ParseStack, f: ParseFrame): (r: ParseStack)
    ensures |r.frames| == |s.frames| + 1 && r.frames[..|s.frames|] == s.frames
  {
    ParseStack(s.frames + [f])
  }

  /** A pushed frame is the top. */
  lemma PushThenTop(s: ParseStack, f: ParseFrame)
    ensures StackTop(StackPush(s, f)) == f
  {
  }

  /** Some frame is a block start. */
  function HasBlockStart(frames: seq<ParseFrame>): (r: bool)
    ensures r <==> exists i :: 0 <= i < |frames| && frames[i] == BlockStartFrame
  {
    if |frames| == 0 then false
    else frames[0] == BlockStartFrame || HasBlockStart(frames[1..])
  }

  /** `ParseStack::in_block`. */
  function InBlock(s: ParseStack): (r: bool)
    ensures r <==> exists i :: 0 <= i < |s.frames| && s.frames[i].BlockStartFrame?
  {
    HasBlockStart(s.frames)
  }

  /** A frame that decides whether the path is rooted: a separator or an identifier. */
  predicate PathFrame(f: ParseFrame) {
    f.PathSeparatorFrame? || f.IdentifierFrame?
  }

  /** The first path frame, oldest first (`find_map`). */
  function FirstPathFrame(frames: seq<ParseFrame>): (r: Option<nat>)
    ensures r.Some? ==> r.value < |frames| && PathFrame(frames[r.value])
    ensures r.Some? ==> forall i :: 0 <= i < r.value ==> !PathFrame(frames[i])
    ensures r.None? <==> forall i :: 0 <= i < |frames| ==> !PathFrame(frames[i])
  {
    if |frames| == 0 then None
    else if PathFrame(frames[0]) then Some(0)
    else
      match FirstPathFrame(frames[1..])
      case None => None
      case Some(i) => Some(i + 1)
  }

  /**
   `ParseStack::rooted`: the path is rooted when its oldest separator or
   identifier frame is a separator (a leading `::`); false with neither.
   */
  function IsRooted(s: ParseStack): (r: bool)
    ensures r <==>
      exists i :: 0 <= i < |s.frames| && s.frames[i].PathSeparatorFrame? && (forall j :: 0 <= j < i ==> !PathFrame(s.frames[j]))
  {
    match FirstPathFrame(s.frames)
    case Some(i) => s.frames[i].PathSeparatorFrame?
    case None => false
  }

  /** An identifier frame that contributes to the path: every identifier but `self`. */
  predicate PathIdentifier(f: ParseFrame) {
    f.IdentifierFrame? && f.ident != "self"
  }

  /** The identifiers of the path frames, oldest first. */
  function PathOf(frames: seq<ParseFrame>): (r: seq<string>)
    ensures |r| <= |frames|
    ensures forall k :: 0 <= k < |r| ==> r[k] != "self"
    decreases |frames|
  {
    if |frames| == 0 then []
    else (if PathIdentifier(frames[0]) then [frames[0].ident] else []) + PathOf(frames[1..])
  }

  /** `ParseStack::path`. */
  function Path(s: ParseStack): (r: seq<string>)
    ensures |r| <= |s.frames|
    ensures forall k :: 0 <= k < |r| ==> r[k] != "self"
  {
    PathOf(s.frames)
  }

  /** The path grows by a pushed identifier other than `self`, and not otherwise. */
  lemma {:induction false} PathOfAppend(frames: seq<ParseFrame>, f: ParseFrame)
    ensures PathOf(frames + [f]) == PathOf(frames) + (if PathIdentifier(f) then [f.ident] else [])
    decreases |frames|
  {
    if |frames| == 0 {
      assert frames + [f] == [f];
    } else {
      assert (frames + [f])[0] == frames[0] && (frames + [f])[1..] == frames[1..] + [f];
      PathOfAppend(frames[1..], f);
    }
  }

  lemma PushPath(s: ParseStack, f: ParseFrame)
    ensures Path(StackPush(s, f)) == Path(s) + (if PathIdentifier(f) then [f.ident] else [])
  {
    PathOfAppend(s.frames, f);
  }

  /** The path holds every identifier frame other than `self`, and nothing else. */
  lemma {:induction false} PathOfMembers(frames: seq<ParseFrame>, x: string)
    ensures x in PathOf(frames) <==> exists i :: 0 <= i < |frames| && PathIdentifier(frames[i]) && frames[i].ident == x
    decreases |frames|
  {
    if |frames| > 0 {
      PathOfMembers(frames[1..], x);
      if exists i :: 0 <= i < |frames[1..]| && PathIdentifier(frames[1..][i]) && frames[1..][i].ident == x {
        var i :| 0 <= i < |frames[1..]| && PathIdentifier(frames[1..][i]) && frames[1..][i].ident == x;
        assert frames[i + 1] == frames[1..][i];
      }
      if exists i :: 0 <= i < |frames| && PathIdentifier(frames[i]) && frames[i].ident == x {
        var i :| 0 <= i < |frames| && PathIdentifier(frames[i]) && frames[i].ident == x;
        if i > 0 {
          assert frames[1..][i - 1] == frames[i];
        }
      }
    }
  }

  /** `ParseStack::in_path`: the path has at least one identifier. */
  function InPath(s: ParseStack): (r: bool)
    ensures r <==> |Path(s)| > 0
    ensures r <==> exists i :: 0 <= i < |s.frames| && PathIdentifier(s.frames[i])
  {
    PathOfNonEmpty(s.frames);
    |Path(s)| > 0
  }

  lemma {:induction false} PathOfNonEmpty(frames: seq<ParseFrame>)
    ensures |PathOf(frames)| > 0 <==> exists i :: 0 <= i < |frames| && PathIdentifier(frames[i])
    decreases |frames|
  {
    if |frames| > 0 {
      PathOfNonEmpty(frames[1..]);
      assert forall i :: 0 <= i < |frames[1..]| ==> frames[1..][i] == frames[i + 1];
      if !PathIdentifier(frames[0]) && exists i :: 0 <= i < |frames| && PathIdentifier(frames[i]) {
        var i :| 0 <= i < |frames| && PathIdentifier(frames[i]);
        assert PathIdentifier(frames[1..][i - 1]);
      }
    }
  }

  /**
   `ParseStack::rooted_path`: the root (whether the path is rooted, and its
   first identifier) and the remaining identifiers; nothing for an empty path.
   */
  function RootedPath(s: ParseStack): (r: Option<(TreeRoot, seq<string>)>)
    ensures r.None? <==> !InPath(s)
    ensures r.Some? ==> r.value.0 == TreeRoot(IsRooted(s), Path(s)[0]) && [r.value.0.identifier] + r.value.1 == Path(s)
  {
    var p := Path(s);
    if |p| == 0 then None else Some((TreeRoot(IsRooted(s), p[0]), p[1..]))
  }

  /** The position of the newest block start (`rposition`). */
  function LastBlockStart(frames: seq<ParseFrame>): (r: Option<nat>)
    ensures r.Some? ==> r.value < |frames| && frames[r.value] == BlockStartFrame
    ensures r.Some? ==> forall i :: r.value < i < |frames| ==> frames[i] != BlockStartFrame
    ensures r.None? <==> forall i :: 0 <= i < |frames| ==> frames[i] != BlockStartFrame
    decreases |frames|
  {
    if |frames| == 0 then None
    else if frames[|frames| - 1] == BlockStartFrame then Some(|frames| - 1)
    else LastBlockStart(frames[..|frames| - 1])
  }

  /**
   `ParseStack::pop_to_block_start`: pop down to the newest block start,
   keeping it, or pop everything outside a block.
   */
  function PopToBlockStart(s: ParseStack): (r: ParseStack)
    ensures r.frames <= s.frames
    ensures InBlock(s) ==> StackTop(r) == BlockStartFrame
    ensures InBlock(s) ==> forall i :: |r.frames| <= i < |s.frames| ==> s.frames[i] != BlockStartFrame
    ensures !InBlock(s) ==> r.frames == []
  {
    match LastBlockStart(s.frames)
    case Some(i) => ParseStack(s.frames[..i + 1])
    case None => ParseStack([])
  }

  /**
   `ParseStack::end_block`: pop down to the newest block start, removing it
   too, or pop everything outside a block.
   */
  function EndBlock(s: ParseStack): (r: ParseStack)
    ensures r.frames <= s.frames
    ensures InBlock(s) ==> |r.frames| < |s.frames| && s.frames[|r.frames|] == BlockStartFrame
    ensures InBlock(s) ==> forall i :: |r.frames| < i < |s.frames| ==> s.frames[i] != BlockStartFrame
    ensures !InBlock(s) ==> r.frames == []
  {
    match LastBlockStart(s.frames)
    case Some(i) => ParseStack(s.frames[..i])
    case None => ParseStack([])
  }

  /** Popping to the block start twice is popping once. */
  lemma PopToBlockStartIdempotent(s: ParseStack)
    ensures PopToBlockStart(PopToBlockStart(s)) == PopToBlockStart(s)
  {
    var r := PopToBlockStart(s);
    if InBlock(s) {
      assert InBlock(r) by {
        assert r.frames[|r.frames| - 1] == BlockStartFrame;
      }
      assert LastBlockStart(r.frames) == Some(|r.frames| - 1);
    }
  }

  /** Ending a block is popping to its start and then dropping the start. */
  lemma EndBlockAfterPop(s: ParseStack)
    requires InBlock(s)
    ensures EndBlock(s).frames == PopToBlockStart(s).frames[..|PopToBlockStart(s).frames| - 1]
  {
  }

  /**
   Blocks nest: after a block start and frames that open no further block,
   popping to the block start returns to just after it, and ending the block
   returns the stack to what it was before the block started.
   */
  lemma BlockScoped(s: ParseStack, inner: seq<ParseFrame>)
    requires forall i :: 0 <= i < |inner| ==> inner[i] != BlockStartFrame
    ensures PopToBlockStart(ParseStack(s.frames + [BlockStartFrame] + inner)) == StackPush(s, BlockStartFrame)
    ensures EndBlock(ParseStack(s.frames + [BlockStartFrame] + inner)) == s
  {
    var all := s.frames + [BlockStartFrame] + inner;
    var n := |s.frames|;
    assert all[n] == BlockStartFrame;
    assert forall i :: n < i < |all| ==> all[i] == inner[i - n - 1];
    var last := LastBlockStart(all);
    assert last.Some?;
    assert last.value == n;
    assert all[..n + 1] == s.frames + [BlockStartFrame];
    assert all[..n] == s.frames;
  }

  // ---------------------------------------------------------------------
  // ParseState

  /** `ParseState`: the finished `use` items, the one being built, and the frame stack. */
  datatype ParseState = ParseState(uses: seq<UseItem>, currentUseItem: Option<UseItem>, stack: ParseStack)

  /** `ParseState::finish_use_item`: the item being built, if any, joins the finished items. */
  function FinishUseItem(st: ParseState): (r: ParseState)
    ensures r.currentUseItem.None? && r.stack == st.stack
    ensures st.currentUseItem.None? ==> r.uses == st.uses
    ensures st.currentUseItem.Some? ==> |r.uses| == |st.uses| + 1 && r.uses[..|st.uses|] == st.uses && r.uses[|st.uses|] == st.currentUseItem.value
  {
    match st.currentUseItem
    case Some(item) => ParseState(st.uses + [item], None, st.stack)
    case None => st
  }

  /** `ParseState::start_use_item`: finish the item being built, then start a fresh one. */
  function StartUseItem(st: ParseState, visibility: Option<Visibility>): (r: ParseState)
    ensures r.uses == FinishUseItem(st).uses && r.stack == st.stack
    ensures r.currentUseItem == Some(NewUseItem(visibility))
  {
    FinishUseItem(st).(currentUseItem := Some(NewUseItem(visibility)))
  }

  /** Finishing twice is finishing once: no item is added twice. */
  lemma FinishUseItemIdempotent(st: ParseState)
    ensures FinishUseItem(FinishUseItem(st)) == FinishUseItem(st)
  {
  }

  /** Every started item is kept: starting items one after another and finishing collects them all, in order. */
  lemma {:induction false} StartAllFinish(st: ParseState, visibilities: seq<Option<Visibility>>)
    requires st.currentUseItem.None?
    ensures FinishUseItem(StartAll(st, visibilities)).uses == st.uses + NewItems(visibilities)
    decreases |visibilities|
  {
    if |visibilities| > 0 {
      var next := StartUseItem(st, visibilities[0]);
      var st' := FinishUseItem(next);
      assert st'.uses == st.uses + [NewUseItem(visibilities[0])];
      assert StartAll(st, visibilities) == StartAll(next, visibilities[1..]);
      if |visibilities| == 1 {
        assert StartAll(next, visibilities[1..]) == next;
      } else {
        StartAllFinishFrom(next, visibilities[1..]);
        StartAllFinish(st', visibilities[1..]);
        assert st.uses + [NewUseItem(visibilities[0])] + NewItems(visibilities[1..]) == st.uses + NewItems(visibilities);
      }
    }
  }

  /** Starting an item after one is being built is starting it after finishing that one. */
  lemma StartAllFinishFrom(st: ParseState, visibilities: seq<Option<Visibility>>)
    requires |visibilities| > 0
    ensures StartAll(st, visibilities) == StartAll(FinishUseItem(st), visibilities)
  {
  }

  /** Start an item for each visibility in turn. */
  function StartAll(st: ParseState, visibilities: seq<Option<Visibility>>): ParseState
    decreases |visibilities|
  {
    if |visibilities| == 0 then st else StartAll(StartUseItem(st, visibilities[0]), visibilities[1..])
  }

  /** Fresh items for the given visibilities. */
  function NewItems(visibilities: seq<Option<Visibility>>): seq<UseItem>
    decreases |visibilities|
  {
    if |visibilities| == 0 then [] else [NewUseItem(visibilities[0])] + NewItems(visibilities[1..])
  }
}
