/**
 A file containing git conflict markers: parsing it into plain lines and
 conflicts, numbering every line by its position in the conflicted file,
 and deriving the left or right version of the file together with a
 mapping from its line numbers back to the original ones.
 */
module GitFile {
  import Common

  /** A one-indexed line number. */
  type LineNumber = n: int | n >= 1 witness 1

  /** `LineNumber::get_incr`: the current number, and the number after it. */
  function GetIncr(n: LineNumber): (r: (LineNumber, LineNumber))
    ensures r.0 == n && r.1 == n + 1
  {
    (n, n + 1)
  }

  /** A line of text together with its number in the conflicted file. */
  datatype Line = Line(content: string, lineNumber: LineNumber)

  datatype Side = Left | Right

  /** One side of a conflict: the ref name from its marker line, and its lines. */
  datatype ConflictHalf<L> = ConflictHalf(name: string, lines: seq<L>)

  datatype Conflict<L> = Conflict(left: ConflictHalf<L>, right: ConflictHalf<L>)

  /** A plain line, or a whole conflict. */
  datatype Chunk<L> = LineChunk(line: L) | ConflictChunk(conflict: Conflict<L>)

  /** A parsed file: its chunks, every line numbered. */
  datatype GitFile = GitFile(chunks: seq<Chunk<Line>>)

  /**
   The outcome of a parser: success with the unparsed rest, a recoverable
   error (another alternative may be tried), or a failure after a cut.
   */
  datatype PResult<T> = POk(tail: string, value: T) | PError | PFailure

  /** The index of the first newline, or the length when there is none. */
  function FindNewline(s: string): (r: nat)
    ensures r <= |s|
    ensures r < |s| ==> s[r] == '\n'
    ensures forall i :: 0 <= i < r ==> s[i] != '\n'
  {
    if |s| == 0 then 0
    else if s[0] == '\n' then 0
    else 1 + FindNewline(s[1..])
  }

  /** A physical line: non-empty, with a newline at most as its last character. */
  predicate WellFormedLine(l: string) {
    |l| > 0 && forall i :: 0 <= i < |l| - 1 ==> l[i] != '\n'
  }

  predicate EndsWithNewline(l: string) {
    |l| > 0 && l[|l| - 1] == '\n'
  }

  /**
   `parse_any_line`: everything up to and including the first newline, or
   the whole input when it has none. It never fails.
   */
  function AnyLine(input: string): (r: (string, string))
    ensures r.0 + r.1 == input
    ensures |input| > 0 ==> WellFormedLine(r.0)
    ensures |r.1| > 0 ==> EndsWithNewline(r.0)
    ensures !EndsWithNewline(r.0) ==> r.1 == []
  {
    var idx := FindNewline(input);
    var split := if idx < |input| then idx + 1 else |input|;
    (input[..split], input[split..])
  }

  /** The physical lines of a text, as `AnyLine` cuts them. */
  function PhysicalLines(s: string): (r: seq<string>)
    ensures |s| > 0 ==> |r| > 0
    decreases |s|
  {
    if |s| == 0 then []
    else
      var (line, tail) := AnyLine(s);
      [line] + PhysicalLines(tail)
  }

  /** Every physical line is well formed, and all but the last end with a newline. */
  lemma {:induction false} PhysicalLinesWellFormed(s: string)
    ensures forall i :: 0 <= i < |PhysicalLines(s)| ==> WellFormedLine(PhysicalLines(s)[i])
    ensures forall i :: 0 <= i < |PhysicalLines(s)| - 1 ==> EndsWithNewline(PhysicalLines(s)[i])
    decreases |s|
  {
    if |s| > 0 {
      var line := AnyLine(s).0;
      var tail := AnyLine(s).1;
      PhysicalLinesWellFormed(tail);
      var r := PhysicalLines(s);
      var q := PhysicalLines(tail);
      assert r == [line] + q;
      forall i | 0 <= i < |r|
        ensures WellFormedLine(r[i])
        ensures i < |r| - 1 ==> EndsWithNewline(r[i])
      {
        if i > 0 {
          assert r[i] == q[i - 1];
        } else {
          assert r[0] == line && WellFormedLine(line);
          if i < |r| - 1 {
            assert |tail| > 0;
            assert EndsWithNewline(line);
          }
        }
      }
    }
  }

  function Concat(ls: seq<string>): string {
    if |ls| == 0 then "" else ls[0] + Concat(ls[1..])
  }

  /** Joining the physical lines gives back the text. */
  lemma {:induction false} PhysicalLinesConcat(s: string)
    ensures Concat(PhysicalLines(s)) == s
    decreases |s|
  {
    if |s| > 0 {
      PhysicalLinesConcat(AnyLine(s).1);
    }
  }

  /** `AnyLine` cuts a well-formed first line off a text that starts with it. */
  lemma AnyLineOfPrefix(l: string, rest: string)
    requires WellFormedLine(l)
    requires EndsWithNewline(l) || rest == []
    ensures AnyLine(l + rest) == (l, rest)
  {
    var s := l + rest;
    var idx := FindNewline(s);
    assert forall i :: 0 <= i < |l| - 1 ==> s[i] == l[i];
    if EndsWithNewline(l) {
      assert s[|l| - 1] == '\n';
      assert idx == |l| - 1;
    } else {
      assert s == l;
      assert idx == |s|;
    }
  }

  /** Cutting well-formed lines that end in newlines (but possibly the last) gives those lines back. */
  lemma {:induction false} PhysicalLinesOfConcat(ls: seq<string>)
    requires forall i :: 0 <= i < |ls| ==> WellFormedLine(ls[i])
    requires forall i :: 0 <= i < |ls| - 1 ==> EndsWithNewline(ls[i])
    ensures PhysicalLines(Concat(ls)) == ls
    decreases |ls|
  {
    if |ls| > 0 {
      PhysicalLinesOfConcat(ls[1..]);
      if |ls| == 1 {
        assert Concat(ls[1..]) == [];
      }
      AnyLineOfPrefix(ls[0], Concat(ls[1..]));
    }
  }

  /** The physical lines of a non-empty text: its first line, then those of the rest. */
  lemma PhysicalLinesStep(s: string)
    requires |s| > 0
    ensures PhysicalLines(s) == [AnyLine(s).0] + PhysicalLines(AnyLine(s).1)
  {
  }

  const HeaderArrows: string := "<<<<<<<"
  const FooterArrows: string := ">>>>>>>"
  const Separator: string := "=======\n"

  /** The length of the run of spaces and tabs at the start (`space0`). */
  function Space0(s: string): (r: nat)
    ensures r <= |s|
    ensures forall i :: 0 <= i < r ==> s[i] == ' ' || s[i] == '\t'
    ensures r < |s| ==> s[r] != ' ' && s[r] != '\t'
  {
    if |s| > 0 && (s[0] == ' ' || s[0] == '\t') then 1 + Space0(s[1..]) else 0
  }

  /**
   `parse_conflict_part`: the chevrons, optional spaces and tabs, then the
   rest of the line, whose trailing whitespace is trimmed off to give the
   ref name.
   */
  function ConflictPart(arrows: string, input: string): (r: PResult<string>)
    ensures r.POk? <==> arrows <= input
    ensures r.POk? ==> |r.tail| <= |input| - |arrows|
  {
    if arrows <= input then
      var rest := input[|arrows|..];
      var k := Space0(rest);
      var (line, tail) := AnyLine(rest[k..]);
      POk(tail, Common.TrimEnd(line))
    else PError
  }

  /** A newline-free prefix does not move where the first newline is found. */
  lemma {:induction false} FindNewlineSkips(pre: string, s: string)
    requires forall i :: 0 <= i < |pre| ==> pre[i] != '\n'
    ensures FindNewline(pre + s) == |pre| + FindNewline(s)
    decreases |pre|
  {
    if |pre| > 0 {
      assert (pre + s)[1..] == pre[1..] + s;
      FindNewlineSkips(pre[1..], s);
    } else {
      assert pre + s == s;
    }
  }

  /** A newline-free prefix joins the first line. */
  lemma AnyLineSkips(pre: string, s: string)
    requires forall i :: 0 <= i < |pre| ==> pre[i] != '\n'
    ensures AnyLine(pre + s) == (pre + AnyLine(s).0, AnyLine(s).1)
  {
    FindNewlineSkips(pre, s);
    var idx := FindNewline(s);
    var split := if idx < |s| then idx + 1 else |s|;
    assert (pre + s)[..|pre| + split] == pre + s[..split];
    assert (pre + s)[|pre| + split..] == s[split..];
  }

  /** Neither run of chevrons holds a newline. */
  lemma ArrowsNoNewline(arrows: string)
    requires arrows == HeaderArrows || arrows == FooterArrows
    ensures forall i :: 0 <= i < |arrows| ==> arrows[i] != '\n'
  {
  }

  /** A marker line is exactly one physical line, whatever follows the chevrons. */
  lemma ConflictPartIsOneLine(arrows: string, input: string)
    requires arrows == HeaderArrows || arrows == FooterArrows
    requires ConflictPart(arrows, input).POk?
    ensures ConflictPart(arrows, input).tail == AnyLine(input).1
  {
    var rest := input[|arrows|..];
    var k := Space0(rest);
    assert ConflictPart(arrows, input).tail == AnyLine(rest[k..]).1;
    ArrowsNoNewline(arrows);
    var pre := BlankAfterArrows(input, arrows, rest, k);
    AnyLineSkips(pre, rest[k..]);
  }

  /** The chevrons and the blanks after them hold no newline, and the rest of the input follows them. */
  lemma BlankAfterArrows(input: string, arrows: string, rest: string, k: nat) returns (pre: string)
    requires arrows <= input && rest == input[|arrows|..] && k <= |rest|
    requires forall i :: 0 <= i < |arrows| ==> arrows[i] != '\n'
    requires forall i :: 0 <= i < k ==> rest[i] == ' ' || rest[i] == '\t'
    ensures pre == input[..|arrows| + k] && input == pre + rest[k..]
    ensures forall i :: 0 <= i < |pre| ==> pre[i] != '\n'
  {
    pre := input[..|arrows| + k];
    forall i | 0 <= i < |pre|
      ensures pre[i] != '\n'
    {
      if i < |arrows| {
        assert pre[i] == arrows[i];
      } else {
        assert pre[i] == rest[i - |arrows|];
      }
    }
  }

  /** What ends a run of lines: the separator line, the footer line, or the end of input. */
  datatype Terminator = SeparatorTerm | FooterTerm | EofTerm

  /** Try a terminator; its value is the ref name for a footer and empty otherwise. */
  function Terminate(term: Terminator, input: string): (r: PResult<string>)
    ensures !r.PFailure?
    ensures r.POk? && term != EofTerm ==> |input| > 0 && r.tail == AnyLine(input).1
    ensures r.POk? && term == EofTerm ==> input == [] && r.tail == []
  {
    match term
    case SeparatorTerm =>
      if Separator <= input then
        AnyLineOfPrefix(Separator, input[|Separator|..]);
        assert input == Separator + input[|Separator|..];
        POk(input[|Separator|..], "")
      else PError
    case FooterTerm =>
      var r := ConflictPart(FooterArrows, input);
      if r.POk? then ConflictPartIsOneLine(FooterArrows, input); r else r
    case EofTerm =>
      if input == [] then POk(input, "") else PError
  }

  /**
   `parse_lines_terminated(parse_any_line, terminator)`: the terminator is
   tried before every line; running out of input first is an error.
   */
  function ParseHalf(input: string, term: Terminator): (r: PResult<(seq<string>, string)>)
    ensures !r.PFailure?
    ensures r.POk? ==> |r.tail| <= |input|
    decreases |input|
  {
    var t := Terminate(term, input);
    if t.POk? then POk(t.tail, ([], t.value))
    else if input == [] then PError
      else
        var (line, tail) := AnyLine(input);
        var rest := ParseHalf(tail, term);
        if rest.POk? then POk(rest.tail, ([line] + rest.value.0, rest.value.1)) else PError
  }

  /**
   `parse_conflict`: a header line, lines up to the separator line, lines up
   to the footer line. Once the header is seen, anything missing is a
   failure (the `cut`), not an error.
   */
  function ParseConflict(input: string): (r: PResult<Conflict<string>>)
    ensures r.POk? ==> |r.tail| < |input|
    ensures r.PError? <==> !(HeaderArrows <= input)
  {
    match ConflictPart(HeaderArrows, input)
    case POk(rest, leftName) =>
      (match ParseHalf(rest, SeparatorTerm)
       case POk(rest2, left) =>
         (match ParseHalf(rest2, FooterTerm)
          case POk(rest3, right) => POk(rest3, Conflict(ConflictHalf(leftName, left.0), ConflictHalf(right.1, right.0)))
          case _ => PFailure)
       case _ => PFailure)
    case _ => PError
  }

  /** The chunks of a whole file: conflicts where they parse, plain lines otherwise, up to the end of input. */
  function ParseChunks(input: string): (r: PResult<seq<Chunk<string>>>)
    ensures !r.PError?
    ensures r.POk? ==> r.tail == []
    decreases |input|
  {
    if input == [] then POk([], [])
    else
      var step: PResult<Chunk<string>> :=
        match ParseConflict(input)
        case POk(t, c) => POk(t, ConflictChunk(c))
        case PFailure => PFailure
        case PError => var (l, t) := AnyLine(input); POk(t, LineChunk(l));
      match step
      case POk(t, c) =>
        (match ParseChunks(t)
         case POk(t', cs) => POk(t', [c] + cs)
         case _ => PFailure)
      case _ => PFailure
  }

  /** `parse_file` under `final_parser`: the numbered chunks, or nothing when a conflict is malformed. */
  function ParseFile(input: string): (r: Common.Option<GitFile>)
    ensures r.Some? <==> ParseChunks(input).POk?
  {
    match ParseChunks(input)
    case POk(_, chunks) => Common.Some(GitFile(FromChunks(chunks, 1)))
    case _ => Common.None
  }

  /** Number `lines` consecutively from `n`. */
  function NumberLines(lines: seq<string>, n: LineNumber): (r: seq<Line>)
    ensures |r| == |lines|
  {
    seq(|lines|, i requires 0 <= i < |lines| => Line(lines[i], n + i))
  }

  /** `ConflictHalf::with_line_number`: the marker line takes a number, then each line. */
  function HalfWithLineNumber(h: ConflictHalf<string>, n: LineNumber): (r: (ConflictHalf<Line>, LineNumber))
    ensures r.0.name == h.name && r.1 == n + 1 + |h.lines|
  {
    var (_, first) := GetIncr(n);
    (ConflictHalf(h.name, NumberLines(h.lines, first)), first + |h.lines|)
  }

  /** `Conflict::with_line_number`: the left half, the right half, then the footer line. */
  function ConflictWithLineNumber(c: Conflict<string>, n: LineNumber): (r: (Conflict<Line>, LineNumber))
    ensures r.1 == n + |c.left.lines| + |c.right.lines| + 3
  {
    var (left, n1) := HalfWithLineNumber(c.left, n);
    var (right, n2) := HalfWithLineNumber(c.right, n1);
    (Conflict(left, right), GetIncr(n2).1)
  }

  /** `Chunk::with_line_number`. */
  function ChunkWithLineNumber(c: Chunk<string>, n: LineNumber): (r: (Chunk<Line>, LineNumber))
    ensures r.1 == n + |ChunkSlots(c)|
  {
    match c
    case LineChunk(l) => (LineChunk(Line(l, n)), GetIncr(n).1)
    case ConflictChunk(conflict) =>
      var (c', n') := ConflictWithLineNumber(conflict, n);
      (ConflictChunk(c'), n')
  }

  /** `GitFile::from_chunks`: number the chunks in order, starting at `n`. */
  function FromChunks(chunks: seq<Chunk<string>>, n: LineNumber): (r: seq<Chunk<Line>>)
    ensures |r| == |chunks|
    decreases |chunks|
  {
    if |chunks| == 0 then []
    else
      var (c, n') := ChunkWithLineNumber(chunks[0], n);
      [c] + FromChunks(chunks[1..], n')
  }

  function Somes(lines: seq<string>): (r: seq<Common.Option<string>>)
    ensures |r| == |lines|
  {
    seq(|lines|, i requires 0 <= i < |lines| => Common.Some(lines[i]))
  }

  /**
   The physical lines a chunk occupies: the content of a plain or conflict
   line, and `None` for each of the three marker lines of a conflict.
   */
  function ChunkSlots(c: Chunk<string>): (r: seq<Common.Option<string>>)
    ensures |r| > 0
  {
    match c
    case LineChunk(l) => [Common.Some(l)]
    case ConflictChunk(c) => [Common.None] + Somes(c.left.lines) + [Common.None] + Somes(c.right.lines) + [Common.None]
  }

  function Slots(chunks: seq<Chunk<string>>): seq<Common.Option<string>> {
    if |chunks| == 0 then [] else ChunkSlots(chunks[0]) + Slots(chunks[1..])
  }

  /** The slots agree with the text's physical lines: as many, and every content slot is that line. */
  predicate Agree(slots: seq<Common.Option<string>>, lines: seq<string>) {
    && |slots| == |lines|
    && forall i :: 0 <= i < |slots| && slots[i].Some? ==> slots[i].value == lines[i]
  }

  /** The lines before the terminator are the text's first physical lines; the terminator takes one more. */
  lemma {:induction false} ParseHalfLines(input: string, term: Terminator)
    requires term != EofTerm
    requires ParseHalf(input, term).POk?
    ensures |PhysicalLines(input)| > |ParseHalf(input, term).value.0|
    ensures PhysicalLines(input) ==
      ParseHalf(input, term).value.0 + [PhysicalLines(input)[|ParseHalf(input, term).value.0|]] + PhysicalLines(ParseHalf(input, term).tail)
    decreases |input|
  {
    var r := ParseHalf(input, term);
    if Terminate(term, input).POk? {
      TerminatedHalf(input, term);
      PhysicalLinesStep(input);
      HeadSplit(PhysicalLines(input), AnyLine(input).0, PhysicalLines(r.tail), r.value.0);
    } else {
      ParseHalfUnfold(input, term);
      var line := AnyLine(input).0;
      var tail := AnyLine(input).1;
      var rest := ParseHalf(tail, term);
      ParseHalfLines(tail, term);
      PhysicalLinesStep(input);
      var q := PhysicalLines(tail);
      ConsSplit(PhysicalLines(input), line, q, rest.value.0, q[|rest.value.0|], PhysicalLines(rest.tail), r.value.0);
    }
  }

  /** A sequence that starts with `x` is the empty layout, then `x`, then the rest. */
  lemma HeadSplit<T>(p: seq<T>, x: T, rest: seq<T>, none: seq<T>)
    requires p == [x] + rest && none == []
    ensures |p| > |none| && p == none + [p[|none|]] + rest
  {
  }

  /** When the terminator matches at once, the half is empty and the terminator takes the first line. */
  lemma TerminatedHalf(input: string, term: Terminator)
    requires term != EofTerm && Terminate(term, input).POk?
    ensures |input| > 0
    ensures ParseHalf(input, term).POk? && ParseHalf(input, term).value.0 == [] && ParseHalf(input, term).tail == AnyLine(input).1
  {
  }

  /** A line put in front of a layout `ls, x, rest` gives the layout `line + ls, x, rest`. */
  lemma ConsSplit<T>(p: seq<T>, line: T, q: seq<T>, ls: seq<T>, x: T, rest: seq<T>, all: seq<T>)
    requires p == [line] + q && q == ls + [x] + rest && all == [line] + ls
    ensures |p| > |all| && p == all + [p[|all|]] + rest
  {
    assert p == all + [x] + rest;
  }

  lemma ParseHalfUnfold(input: string, term: Terminator)
    requires ParseHalf(input, term).POk? && !Terminate(term, input).POk?
    ensures |input| > 0
    ensures var rest := ParseHalf(AnyLine(input).1, term);
      && rest.POk?
      && ParseHalf(input, term).value.0 == [AnyLine(input).0] + rest.value.0
      && ParseHalf(input, term).tail == rest.tail
  {
  }

  lemma AgreeAppend(a: seq<Common.Option<string>>, x: seq<string>, b: seq<Common.Option<string>>, y: seq<string>)
    requires Agree(a, x) && Agree(b, y)
    ensures Agree(a + b, x + y)
  {
    forall i | 0 <= i < |a + b| && (a + b)[i].Some?
      ensures (a + b)[i].value == (x + y)[i]
    {
      if i >= |a| {
        assert (a + b)[i] == b[i - |a|] && (x + y)[i] == y[i - |a|];
      }
    }
  }

  /** The pieces of a parsed conflict: header, then lines up to the separator, then lines up to the footer. */
  lemma ParseConflictUnfold(input: string)
    requires ParseConflict(input).POk?
    ensures var h := ConflictPart(HeaderArrows, input);
      && h.POk?
      && ParseHalf(h.tail, SeparatorTerm).POk?
      && ParseHalf(ParseHalf(h.tail, SeparatorTerm).tail, FooterTerm).POk?
      && ParseConflict(input).value.left.lines == ParseHalf(h.tail, SeparatorTerm).value.0
      && ParseConflict(input).value.right.lines == ParseHalf(ParseHalf(h.tail, SeparatorTerm).tail, FooterTerm).value.0
      && ParseConflict(input).tail == ParseHalf(ParseHalf(h.tail, SeparatorTerm).tail, FooterTerm).tail
  {
  }

  lemma Layout<T>(p: seq<T>, h: T, q: seq<T>, a: seq<T>, y: T, w: seq<T>, b: seq<T>, z: T, t: seq<T>)
    requires p == [h] + q && q == a + [y] + w && w == b + [z] + t
    ensures |p| >= |a| + |b| + 3
    ensures p == [p[0]] + a + [p[1 + |a|]] + b + [p[2 + |a| + |b|]] + t
  {
    assert p == [h] + a + [y] + b + [z] + t;
  }

  /** A parsed conflict spans its header, left lines, separator, right lines and footer, one physical line each. */
  lemma ConflictLayout(input: string)
    requires ParseConflict(input).POk?
    ensures |PhysicalLines(input)| >= |ParseConflict(input).value.left.lines| + |ParseConflict(input).value.right.lines| + 3
    ensures var r := ParseConflict(input);
      var p := PhysicalLines(input);
      var L := |r.value.left.lines|;
      var R := |r.value.right.lines|;
      p == [p[0]] + r.value.left.lines + [p[1 + L]] + r.value.right.lines + [p[2 + L + R]] + PhysicalLines(r.tail)
  {
    ParseConflictUnfold(input);
    var h := ConflictPart(HeaderArrows, input);
    var a := ParseHalf(h.tail, SeparatorTerm);
    var b := ParseHalf(a.tail, FooterTerm);
    ConflictPartIsOneLine(HeaderArrows, input);
    PhysicalLinesStep(input);
    ParseHalfLines(h.tail, SeparatorTerm);
    ParseHalfLines(a.tail, FooterTerm);
    var q := PhysicalLines(h.tail);
    var w := PhysicalLines(a.tail);
    Layout(PhysicalLines(input), AnyLine(input).0, q, a.value.0, q[|a.value.0|], w, b.value.0, w[|b.value.0|], PhysicalLines(b.tail));
  }

  lemma AgreeSomes(ls: seq<string>)
    ensures Agree(Somes(ls), ls)
  {
  }

  /** A parsed conflict's slots agree with the physical lines it spans. */
  lemma ParseConflictLines(input: string)
    requires ParseConflict(input).POk?
    ensures var r := ParseConflict(input);
      var p := PhysicalLines(input);
      var n := |ChunkSlots(ConflictChunk(r.value))|;
      && n <= |p|
      && Agree(ChunkSlots(ConflictChunk(r.value)), p[..n])
      && p[n..] == PhysicalLines(r.tail)
  {
    var r := ParseConflict(input);
    var c := r.value;
    var p := PhysicalLines(input);
    var L := |c.left.lines|;
    var R := |c.right.lines|;
    ConflictLayout(input);
    var x := [p[0]] + c.left.lines + [p[1 + L]] + c.right.lines + [p[2 + L + R]];
    PrefixSplit(p, x, PhysicalLines(r.tail));
    ConflictSlotsAgree(p[0], c.left.lines, p[1 + L], c.right.lines, p[2 + L + R], ChunkSlots(ConflictChunk(c)), x);
  }

  /** A sequence that is `x` followed by `t` splits back into the two. */
  lemma PrefixSplit<T>(p: seq<T>, x: seq<T>, t: seq<T>)
    requires p == x + t
    ensures |x| <= |p| && p[..|x|] == x && p[|x|..] == t
  {
  }

  /** A conflict's slots agree with its lines framed by any three marker lines. */
  lemma ConflictSlotsAgree(a: string, left: seq<string>, b: string, right: seq<string>, c: string,
                           slots: seq<Common.Option<string>>, x: seq<string>)
    requires slots == [Common.None] + Somes(left) + [Common.None] + Somes(right) + [Common.None]
    requires x == [a] + left + [b] + right + [c]
    ensures Agree(slots, x)
  {
    AgreeSomes(left);
    AgreeSomes(right);
    var none: seq<Common.Option<string>> := [Common.None];
    AgreeAppend(none, [a], Somes(left), left);
    AgreeAppend(none + Somes(left), [a] + left, none, [b]);
    AgreeAppend(none + Somes(left) + none, [a] + left + [b], Somes(right), right);
    AgreeAppend(none + Somes(left) + none + Somes(right), [a] + left + [b] + right, none, [c]);
  }

  /** Where the chunk loop resumes after the first chunk: past a conflict if one parses, else past one line. */
  function ChunkTail(input: string): (t: string)
    requires input != []
    ensures |t| < |input|
  {
    if ParseConflict(input).POk? then ParseConflict(input).tail else AnyLine(input).1
  }

  /** The first chunk of a parsed text occupies its first physical lines, and the loop goes on from the rest. */
  lemma FirstChunkSlots(input: string)
    requires input != [] && ParseChunks(input).POk?
    ensures var chunks := ParseChunks(input).value;
      var p := PhysicalLines(input);
      var n := |ChunkSlots(chunks[0])|;
      && |chunks| > 0
      && ParseChunks(ChunkTail(input)).POk?
      && chunks[1..] == ParseChunks(ChunkTail(input)).value
      && n <= |p|
      && Agree(ChunkSlots(chunks[0]), p[..n])
      && p[n..] == PhysicalLines(ChunkTail(input))
  {
    if ParseConflict(input).POk? {
      ParseConflictLines(input);
    } else {
      PhysicalLinesStep(input);
    }
  }

  /** Slots that agree with the two parts of a sequence of lines, cut at `n`, agree with the whole. */
  lemma AgreeJoin(a: seq<Common.Option<string>>, b: seq<Common.Option<string>>, p: seq<string>, n: nat)
    requires n <= |p| && Agree(a, p[..n]) && Agree(b, p[n..])
    ensures Agree(a + b, p)
  {
    AgreeAppend(a, p[..n], b, p[n..]);
    assert p[..n] + p[n..] == p;
  }

  lemma SlotsCons(chunks: seq<Chunk<string>>)
    requires |chunks| > 0
    ensures Slots(chunks) == ChunkSlots(chunks[0]) + Slots(chunks[1..])
  {
  }

  /** The chunks of a parsed file occupy exactly its physical lines, each content line being that line. */
  lemma {:induction false} ParseChunksSlots(input: string)
    requires ParseChunks(input).POk?
    ensures Agree(Slots(ParseChunks(input).value), PhysicalLines(input))
    decreases |input|
  {
    if input != [] {
      var chunks := ParseChunks(input).value;
      var p := PhysicalLines(input);
      var t := ChunkTail(input);
      FirstChunkSlots(input);
      ParseChunksSlots(t);
      var n := |ChunkSlots(chunks[0])|;
      AgreeJoin(ChunkSlots(chunks[0]), Slots(chunks[1..]), p, n);
      SlotsCons(chunks);
    }
  }

  /** The lines one chunk contributes to a side: the plain line, or that side of the conflict. */
  function SideLines(c: Chunk<Line>, side: Side): seq<Line> {
    match c
    case LineChunk(l) => [l]
    case ConflictChunk(conflict) => if side == Left then conflict.left.lines else conflict.right.lines
  }

  /** `GitFile::get_lines`: the plain lines, and from each conflict the lines of the chosen side. */
  function GetLines(chunks: seq<Chunk<Line>>, side: Side): seq<Line> {
    if |chunks| == 0 then [] else SideLines(chunks[0], side) + GetLines(chunks[1..], side)
  }

  predicate HasConflictChunk<L>(chunks: seq<Chunk<L>>) {
    exists i :: 0 <= i < |chunks| && chunks[i].ConflictChunk?
  }

  /** `GitFile::contains_conflict`. */
  predicate ContainsConflict(gf: GitFile) {
    HasConflictChunk(gf.chunks)
  }

  /** Every line sits at the slot its number names, counting from `n`. */
  predicate NumberedBy(lines: seq<Line>, slots: seq<Common.Option<string>>, n: int) {
    forall i :: 0 <= i < |lines| ==>
      n <= lines[i].lineNumber < n + |slots| && slots[lines[i].lineNumber - n] == Common.Some(lines[i].content)
  }

  /** Line numbers strictly increase. */
  predicate Increasing(lines: seq<Line>) {
    forall i, j :: 0 <= i < j < |lines| ==> lines[i].lineNumber < lines[j].lineNumber
  }

  lemma NumberedByAppend(a: seq<Line>, s1: seq<Common.Option<string>>, b: seq<Line>, s2: seq<Common.Option<string>>, n: int)
    requires NumberedBy(a, s1, n) && NumberedBy(b, s2, n + |s1|)
    ensures NumberedBy(a + b, s1 + s2, n)
  {
    forall i | 0 <= i < |a + b|
      ensures var l := (a + b)[i];
        n <= l.lineNumber < n + |s1 + s2| && (s1 + s2)[l.lineNumber - n] == Common.Some(l.content)
    {
      if i >= |a| {
        var l := b[i - |a|];
        assert (s1 + s2)[l.lineNumber - n] == s2[l.lineNumber - n - |s1|];
      }
    }
  }

  /** The left half is numbered after the header line, the right half after the separator line. */
  lemma ConflictNumberingUnfold(c: Conflict<string>, n: LineNumber)
    ensures ConflictWithLineNumber(c, n).0.left.lines == NumberLines(c.left.lines, n + 1)
    ensures ConflictWithLineNumber(c, n).0.right.lines == NumberLines(c.right.lines, n + |c.left.lines| + 2)
  {
    var left := HalfWithLineNumber(c.left, n);
    var right := HalfWithLineNumber(c.right, left.1);
    assert left.0.lines == NumberLines(c.left.lines, n + 1);
    assert right.0.lines == NumberLines(c.right.lines, n + |c.left.lines| + 2);
    assert ConflictWithLineNumber(c, n).0 == Conflict(left.0, right.0);
  }

  /** The lines `src` numbered from `n + off` sit at slots `off..` of `slots` when those hold `src`. */
  lemma NumberedRun(src: seq<string>, n: LineNumber, off: nat, slots: seq<Common.Option<string>>)
    requires off + |src| <= |slots| && slots[off..off + |src|] == Somes(src)
    ensures NumberedBy(NumberLines(src, n + off), slots, n)
    ensures Increasing(NumberLines(src, n + off))
  {
    var ls := NumberLines(src, n + off);
    forall i | 0 <= i < |ls|
      ensures n <= ls[i].lineNumber < n + |slots| && slots[ls[i].lineNumber - n] == Common.Some(ls[i].content)
    {
      assert slots[off + i] == slots[off..off + |src|][i];
    }
  }

  /** A conflict numbered from `n`: the chosen half's lines sit at their slots, in order. */
  lemma ConflictNumbering(c: Conflict<string>, n: LineNumber, side: Side)
    ensures NumberedBy(SideLines(ConflictChunk(ConflictWithLineNumber(c, n).0), side), ChunkSlots(ConflictChunk(c)), n)
    ensures Increasing(SideLines(ConflictChunk(ConflictWithLineNumber(c, n).0), side))
  {
    var L := |c.left.lines|;
    ConflictNumberingUnfold(c, n);
    var cw := ConflictWithLineNumber(c, n).0;
    var slots := ChunkSlots(ConflictChunk(c));
    var ls := SideLines(ConflictChunk(cw), side);
    if side == Left {
      assert slots[1..1 + L] == Somes(c.left.lines);
      NumberedRun(c.left.lines, n, 1, slots);
      assert ls == cw.left.lines == NumberLines(c.left.lines, n + 1);
      assert NumberedBy(ls, slots, n);
    } else {
      assert slots[L + 2..L + 2 + |c.right.lines|] == Somes(c.right.lines);
      NumberedRun(c.right.lines, n, L + 2, slots);
      assert ls == cw.right.lines == NumberLines(c.right.lines, n + (L + 2));
      assert NumberedBy(ls, slots, n);
    }
  }

  /** One chunk, numbered from `n`: its lines on either side sit at their slots, in order. */
  lemma ChunkNumbering(c: Chunk<string>, n: LineNumber, side: Side)
    ensures NumberedBy(SideLines(ChunkWithLineNumber(c, n).0, side), ChunkSlots(c), n)
    ensures Increasing(SideLines(ChunkWithLineNumber(c, n).0, side))
  {
    if c.ConflictChunk? {
      ConflictNumbering(c.conflict, n, side);
      assert ChunkWithLineNumber(c, n).0 == ConflictChunk(ConflictWithLineNumber(c.conflict, n).0);
    } else {
      var ls := SideLines(ChunkWithLineNumber(c, n).0, side);
      assert ls == [Line(c.line, n)] && ChunkSlots(c) == [Common.Some(c.line)];
      assert NumberedBy(ls, ChunkSlots(c), n) by {
        assert ls[0].lineNumber == n;
      }
    }
  }

  lemma IncreasingAppend(a: seq<Line>, b: seq<Line>, bound: int)
    requires Increasing(a) && Increasing(b)
    requires forall i :: 0 <= i < |a| ==> a[i].lineNumber < bound
    requires forall i :: 0 <= i < |b| ==> bound <= b[i].lineNumber
    ensures Increasing(a + b)
  {
  }

  /** Lines numbered into consecutive runs of slots, each run in order, are numbered into the joined slots, in order. */
  lemma NumberedJoin(all: seq<Line>, a: seq<Line>, b: seq<Line>, slots: seq<Common.Option<string>>,
                     s1: seq<Common.Option<string>>, s2: seq<Common.Option<string>>, n: int, n': int)
    requires all == a + b && slots == s1 + s2 && n' == n + |s1|
    requires NumberedBy(a, s1, n) && NumberedBy(b, s2, n')
    requires Increasing(a) && Increasing(b)
    ensures NumberedBy(all, slots, n)
    ensures Increasing(all)
  {
    NumberedByAppend(a, s1, b, s2, n);
    IncreasingAppend(a, b, n + |s1|);
  }

  /** Numbered from `n`, either side's lines sit at their slots, in strictly increasing order. */
  lemma {:induction false} FromChunksNumbering(chunks: seq<Chunk<string>>, n: LineNumber, side: Side)
    ensures NumberedBy(GetLines(FromChunks(chunks, n), side), Slots(chunks), n)
    ensures Increasing(GetLines(FromChunks(chunks, n), side))
    decreases |chunks|
  {
    if |chunks| > 0 {
      var c := ChunkWithLineNumber(chunks[0], n).0;
      var n' := ChunkWithLineNumber(chunks[0], n).1;
      FromChunksSideCons(chunks, n, side);
      var head := SideLines(c, side);
      var rest := GetLines(FromChunks(chunks[1..], n'), side);
      ChunkNumbering(chunks[0], n, side);
      FromChunksNumbering(chunks[1..], n', side);
      SlotsCons(chunks);
      NumberedJoin(GetLines(FromChunks(chunks, n), side), head, rest, Slots(chunks), ChunkSlots(chunks[0]), Slots(chunks[1..]), n, n');
    }
  }

  /** One side of numbered chunks: the first chunk's lines, then those of the rest, numbered on from it. */
  lemma FromChunksSideCons(chunks: seq<Chunk<string>>, n: LineNumber, side: Side)
    requires |chunks| > 0
    ensures GetLines(FromChunks(chunks, n), side) ==
      SideLines(ChunkWithLineNumber(chunks[0], n).0, side) + GetLines(FromChunks(chunks[1..], ChunkWithLineNumber(chunks[0], n).1), side)
  {
    var numbered := FromChunks(chunks, n);
    assert numbered[0] == ChunkWithLineNumber(chunks[0], n).0;
    assert numbered[1..] == FromChunks(chunks[1..], ChunkWithLineNumber(chunks[0], n).1);
  }

  /** Every line of either side carries the content of the physical line its number names, in order. */
  lemma ParsedLinesAreOriginal(input: string, side: Side)
    requires ParseFile(input).Some?
    ensures Increasing(GetLines(ParseFile(input).value.chunks, side))
    ensures forall i :: 0 <= i < |GetLines(ParseFile(input).value.chunks, side)| ==>
      && GetLines(ParseFile(input).value.chunks, side)[i].lineNumber <= |PhysicalLines(input)|
      && PhysicalLines(input)[GetLines(ParseFile(input).value.chunks, side)[i].lineNumber - 1]
         == GetLines(ParseFile(input).value.chunks, side)[i].content
  {
    var chunks := ParseChunks(input).value;
    ParseChunksSlots(input);
    FromChunksNumbering(chunks, 1, side);
    var ls := GetLines(FromChunks(chunks, 1), side);
    var slots := Slots(chunks);
    var p := PhysicalLines(input);
    forall i | 0 <= i < |ls|
      ensures ls[i].lineNumber <= |p| && p[ls[i].lineNumber - 1] == ls[i].content
    {
      assert slots[ls[i].lineNumber - 1] == Common.Some(ls[i].content);
    }
  }

  /** `DerivedFile`: the text of one side, and for each of its lines the line it came from. */
  datatype DerivedFile = DerivedFile(content: string, lineMappings: map<LineNumber, LineNumber>)

  function Contents(lines: seq<Line>): (r: seq<string>)
    ensures |r| == |lines|
    ensures forall i :: 0 <= i < |lines| ==> r[i] == lines[i].content
  {
    if |lines| == 0 then [] else [lines[0].content] + Contents(lines[1..])
  }

  /**
   `GitFile::build_derived_file`: the chosen side's lines joined together,
   the `j`-th of them (counting from one) mapped to its original number.
   */
  function BuildDerivedFile(gf: GitFile, side: Side): (r: DerivedFile)
    ensures forall j: LineNumber :: j in r.lineMappings <==> j <= |GetLines(gf.chunks, side)|
    ensures forall j: LineNumber :: j in r.lineMappings ==> r.lineMappings[j] == GetLines(gf.chunks, side)[j - 1].lineNumber
  {
    var lines := GetLines(gf.chunks, side);
    DerivedFile(Concat(Contents(lines)), Mappings(lines))
  }

  /** The zip of the lines with 1, 2, 3, ...: derived number to original number. */
  function Mappings(lines: seq<Line>): (m: map<LineNumber, LineNumber>)
    ensures forall j: LineNumber :: j in m <==> j <= |lines|
    ensures forall j: LineNumber :: j in m ==> m[j] == lines[j - 1].lineNumber
  {
    if |lines| == 0 then map[]
    else Mappings(lines[..|lines| - 1])[|lines| := lines[|lines| - 1].lineNumber]
  }

  /** `DerivedFile::get_original_line`. */
  function GetOriginalLine(df: DerivedFile, line: LineNumber): Common.Option<LineNumber> {
    if line in df.lineMappings then Common.Some(df.lineMappings[line]) else Common.None
  }

  /**
   Line `j` of the derived text has an original exactly when the derived
   text has a `j`-th line; that original line has the same content, and
   originals increase with `j`.
   */
  ghost predicate TracesBack(df: DerivedFile, original: string) {
    && (forall j: LineNumber :: GetOriginalLine(df, j).Some? <==> j <= |PhysicalLines(df.content)|)
    && (forall j: LineNumber :: j <= |PhysicalLines(df.content)| ==>
          && GetOriginalLine(df, j).value <= |PhysicalLines(original)|
          && PhysicalLines(original)[GetOriginalLine(df, j).value - 1] == PhysicalLines(df.content)[j - 1])
    && (forall j1: LineNumber, j2: LineNumber :: j1 < j2 <= |PhysicalLines(df.content)| ==>
          GetOriginalLine(df, j1).value < GetOriginalLine(df, j2).value)
  }

  /** Lines taken in increasing order from a text's physical lines are the physical lines of their concatenation. */
  lemma SubsequenceOfPhysicalLines(ls: seq<Line>, original: string)
    requires Increasing(ls)
    requires forall i :: 0 <= i < |ls| ==>
      ls[i].lineNumber <= |PhysicalLines(original)| && PhysicalLines(original)[ls[i].lineNumber - 1] == ls[i].content
    ensures PhysicalLines(Concat(Contents(ls))) == Contents(ls)
  {
    var p := PhysicalLines(original);
    PhysicalLinesWellFormed(original);
    var cs := Contents(ls);
    forall i | 0 <= i < |cs|
      ensures WellFormedLine(cs[i])
      ensures i < |cs| - 1 ==> EndsWithNewline(cs[i])
    {
      assert cs[i] == p[ls[i].lineNumber - 1];
      if i < |cs| - 1 {
        assert ls[i].lineNumber < ls[i + 1].lineNumber;
      }
    }
    PhysicalLinesOfConcat(cs);
  }

  /** Looking up derived line `j`: the number of the `j`-th line, if there is one. */
  lemma MappingsLookup(content: string, ls: seq<Line>, j: LineNumber)
    ensures GetOriginalLine(DerivedFile(content, Mappings(ls)), j) ==
      if j <= |ls| then Common.Some(ls[j - 1].lineNumber) else Common.None
  {
  }

  /** The mapping of a derived file whose lines are `ls` sends `j` to the number of the `j`-th line, if there is one. */
  lemma MappedLine(df: DerivedFile, ls: seq<Line>, j: LineNumber)
    requires df.lineMappings == Mappings(ls)
    ensures GetOriginalLine(df, j) == if j <= |ls| then Common.Some(ls[j - 1].lineNumber) else Common.None
  {
  }

  /**
   Derived line `j` of a file whose lines are `ls`, `d` being its physical
   lines and `p` those of the original: mapped iff it exists, to a line with
   the same content.
   */
  lemma TracesBackAt(df: DerivedFile, ls: seq<Line>, p: seq<string>, d: seq<string>, j: LineNumber)
    requires d == Contents(ls) && df.lineMappings == Mappings(ls)
    requires forall i :: 0 <= i < |ls| ==> ls[i].lineNumber <= |p| && p[ls[i].lineNumber - 1] == ls[i].content
    ensures GetOriginalLine(df, j).Some? <==> j <= |d|
    ensures j <= |d| ==> GetOriginalLine(df, j).value <= |p| && p[GetOriginalLine(df, j).value - 1] == d[j - 1]
  {
    MappedLine(df, ls, j);
  }

  /** A derived file whose lines are `ls`, mapped through their numbers, traces back when `ls` does. */
  lemma TracesBackWhen(df: DerivedFile, ls: seq<Line>, original: string)
    requires PhysicalLines(df.content) == Contents(ls) && df.lineMappings == Mappings(ls)
    requires Increasing(ls)
    requires forall i :: 0 <= i < |ls| ==>
      ls[i].lineNumber <= |PhysicalLines(original)| && PhysicalLines(original)[ls[i].lineNumber - 1] == ls[i].content
    ensures TracesBack(df, original)
  {
    var p := PhysicalLines(original);
    var d := PhysicalLines(df.content);
    forall j: LineNumber
      ensures GetOriginalLine(df, j).Some? <==> j <= |d|
      ensures j <= |d| ==> GetOriginalLine(df, j).value <= |p| && p[GetOriginalLine(df, j).value - 1] == d[j - 1]
    {
      TracesBackAt(df, ls, p, d, j);
    }
    forall j1: LineNumber, j2: LineNumber | j1 < j2 <= |d|
      ensures GetOriginalLine(df, j1).value < GetOriginalLine(df, j2).value
    {
      MappedLine(df, ls, j1);
      MappedLine(df, ls, j2);
    }
  }

  /** Lines taken in increasing order from a text, joined, trace back to it through their numbers. */
  lemma TracesBackOf(ls: seq<Line>, original: string)
    requires Increasing(ls)
    requires forall i :: 0 <= i < |ls| ==>
      ls[i].lineNumber <= |PhysicalLines(original)| && PhysicalLines(original)[ls[i].lineNumber - 1] == ls[i].content
    ensures TracesBack(DerivedFile(Concat(Contents(ls)), Mappings(ls)), original)
  {
    SubsequenceOfPhysicalLines(ls, original);
    TracesBackWhen(DerivedFile(Concat(Contents(ls)), Mappings(ls)), ls, original);
  }

  /** The derived file of either side maps each of its lines back to the conflicted file's line with the same content. */
  lemma DerivedFileTracesBack(input: string, side: Side)
    requires ParseFile(input).Some?
    ensures TracesBack(BuildDerivedFile(ParseFile(input).value, side), input)
  {
    var gf := ParseFile(input).value;
    ParsedLinesAreOriginal(input, side);
    TracesBackOf(GetLines(gf.chunks, side), input);
  }

  /** Without conflicts both sides are the same lines. */
  lemma {:induction false} NoConflictSidesAgree(chunks: seq<Chunk<Line>>)
    requires forall i :: 0 <= i < |chunks| ==> chunks[i].LineChunk?
    ensures GetLines(chunks, Left) == GetLines(chunks, Right)
    decreases |chunks|
  {
    if |chunks| > 0 {
      NoConflictSidesAgree(chunks[1..]);
    }
  }

  /** A file without conflicts derives the same file on both sides. */
  lemma NoConflictSameDerived(gf: GitFile)
    requires !ContainsConflict(gf)
    ensures BuildDerivedFile(gf, Left) == BuildDerivedFile(gf, Right)
  {
    NoConflictSidesAgree(gf.chunks);
  }

  /** Some physical line starts with the conflict header's chevrons. */
  ghost predicate HasHeaderLine(input: string) {
    exists i :: 0 <= i < |PhysicalLines(input)| && HeaderArrows <= PhysicalLines(input)[i]
  }

  /** A non-empty text starts with the chevrons exactly when its first line does. */
  lemma HeaderInFirstLine(input: string)
    requires |input| > 0
    ensures HeaderArrows <= input <==> HeaderArrows <= AnyLine(input).0
  {
    if HeaderArrows <= input {
      assert input == HeaderArrows + input[|HeaderArrows|..];
      assert forall i :: 0 <= i < |HeaderArrows| ==> HeaderArrows[i] != '\n' by {
        assert HeaderArrows == ['<', '<', '<', '<', '<', '<', '<'];
      }
      AnyLineSkips(HeaderArrows, input[|HeaderArrows|..]);
    }
  }

  /** Numbering keeps the kind of every chunk. */
  lemma {:induction false} FromChunksKinds(chunks: seq<Chunk<string>>, n: LineNumber)
    ensures forall i :: 0 <= i < |chunks| ==> (FromChunks(chunks, n)[i].ConflictChunk? <==> chunks[i].ConflictChunk?)
    decreases |chunks|
  {
    if |chunks| > 0 {
      var n' := ChunkWithLineNumber(chunks[0], n).1;
      FromChunksKinds(chunks[1..], n');
      var r := FromChunks(chunks, n);
      assert r[1..] == FromChunks(chunks[1..], n');
      forall i | 1 <= i < |chunks|
        ensures r[i].ConflictChunk? <==> chunks[i].ConflictChunk?
      {
        assert r[i] == r[1..][i - 1];
      }
    }
  }

  /** A text has a header line when it starts with one or its rest after the first line has one. */
  lemma HeaderLineStep(input: string)
    requires |input| > 0
    ensures HasHeaderLine(input) <==> (HeaderArrows <= input || HasHeaderLine(AnyLine(input).1))
  {
    HeaderInFirstLine(input);
    PhysicalLinesStep(input);
    var p := PhysicalLines(input);
    var q := PhysicalLines(AnyLine(input).1);
    assert p == [AnyLine(input).0] + q;
    if HasHeaderLine(AnyLine(input).1) {
      var i :| 0 <= i < |q| && HeaderArrows <= q[i];
      assert p[i + 1] == q[i];
    }
    if HeaderArrows <= input {
      assert HeaderArrows <= p[0];
    }
    if HasHeaderLine(input) {
      var i :| 0 <= i < |p| && HeaderArrows <= p[i];
      if i > 0 {
        assert q[i - 1] == p[i];
      }
    }
  }

  /**
   The chunks of a parsed text contain a conflict exactly when some
   physical line starts with the header chevrons: such a line either opens
   a conflict or sits inside one.
   */
  /** The first step of a successful parse: a conflict where one parses, a plain line where none starts. */
  lemma ParseChunksUnfold(input: string)
    requires input != [] && ParseChunks(input).POk?
    ensures !ParseConflict(input).PFailure?
    ensures ParseConflict(input).POk? ==>
      && ParseChunks(input).value[0] == ConflictChunk(ParseConflict(input).value)
      && ParseChunks(input).value[1..] == ParseChunks(ParseConflict(input).tail).value
    ensures ParseConflict(input).PError? ==>
      && ParseChunks(input).value[0] == LineChunk(AnyLine(input).0)
      && ParseChunks(input).value[1..] == ParseChunks(AnyLine(input).1).value
  {
  }

  /**
   The `cut`: a file that starts with a header line whose conflict does not
   parse is rejected as a whole; it is not read as plain lines instead.
   */
  lemma HeaderCut(input: string)
    requires HeaderArrows <= input && !ParseConflict(input).POk?
    ensures ParseConflict(input).PFailure?
    ensures ParseFile(input).None?
  {
    assert input != [];
  }

  lemma HasConflictChunkCons<L>(chunks: seq<Chunk<L>>)
    requires |chunks| > 0
    ensures HasConflictChunk(chunks) <==> chunks[0].ConflictChunk? || HasConflictChunk(chunks[1..])
  {
    if HasConflictChunk(chunks) {
      var i :| 0 <= i < |chunks| && chunks[i].ConflictChunk?;
      if i > 0 {
        assert chunks[1..][i - 1] == chunks[i];
      }
    }
    if HasConflictChunk(chunks[1..]) {
      var i :| 0 <= i < |chunks[1..]| && chunks[1..][i].ConflictChunk?;
      assert chunks[i + 1] == chunks[1..][i];
    }
  }

  lemma {:induction false} ChunksConflictIffHeader(input: string)
    requires ParseChunks(input).POk?
    ensures HasConflictChunk(ParseChunks(input).value) <==> HasHeaderLine(input)
    decreases |input|
  {
    var chunks := ParseChunks(input).value;
    if input != [] {
      HeaderLineStep(input);
      ParseChunksUnfold(input);
      HasConflictChunkCons(chunks);
      if ParseConflict(input).PError? {
        ChunksConflictIffHeader(AnyLine(input).1);
      }
    }
  }

  /** `GitFile::contains_conflict` of a parsed file: some physical line starts with `<<<<<<<`. */
  lemma ContainsConflictIffHeader(input: string)
    requires ParseFile(input).Some?
    ensures ContainsConflict(ParseFile(input).value) <==> HasHeaderLine(input)
  {
    var chunks := ParseChunks(input).value;
    ChunksConflictIffHeader(input);
    FromChunksKinds(chunks, 1);
  }

  /** A text without a header line always parses. */
  lemma {:induction false} NoHeaderParses(input: string)
    requires !HasHeaderLine(input)
    ensures ParseChunks(input).POk?
    decreases |input|
  {
    if input != [] {
      HeaderLineStep(input);
      NoHeaderParses(AnyLine(input).1);
    }
  }
}
