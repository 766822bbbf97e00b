/**
 Writing the corrected file: the original conflicted file with the lines
 consumed by the import rewrite left out, and the re-rendered imports
 written once, where the first consumed line was. A writer is modelled as
 the sequence of strings written to it, in order.
 */
module WriteFile {
  import opened Common
  import opened GitFile

  /**
   `write_conflict`: halves with identical lines collapse to those lines;
   otherwise the conflict is written back between its markers.
   */
  function WriteConflict(c: Conflict<string>): (r: seq<string>)
    ensures c.left.lines == c.right.lines ==> r == c.left.lines
    ensures c.left.lines != c.right.lines ==> |r| == |c.left.lines| + |c.right.lines| + 3
  {
    if c.left.lines == c.right.lines then c.left.lines
    else
      ["<<<<<<< " + c.left.name + "\n"] + c.left.lines + [Separator] + c.right.lines + [">>>>>>> " + c.right.name + "\n"]
  }

  /** `filtered_lines`: the contents of the lines that were not discarded, in order. */
  function FilteredLines(lines: seq<Line>, discarded: set<LineNumber>): (r: seq<string>)
    ensures |r| <= |lines|
  {
    if |lines| == 0 then []
    else (if lines[0].lineNumber in discarded then [] else [lines[0].content]) + FilteredLines(lines[1..], discarded)
  }

  /** Where the imports go: nowhere, in place of one line, or in place of one line on each side of a conflict. */
  datatype InsertPoint = Nowhere | Once(point: LineNumber) | IntoConflict(left: LineNumber, right: LineNumber)

  /** `InsertPoint::contains_line`. */
  predicate ContainsLine(ip: InsertPoint, line: LineNumber) {
    match ip
    case Nowhere => false
    case Once(point) => point == line
    case IntoConflict(left, right) => left == line || right == line
  }

  /**
   `filtered_lines_inject_content`: an insert-point line becomes the
   imports, other discarded lines vanish, the rest keep their content.
   */
  function InjectContent(lines: seq<Line>, discarded: set<LineNumber>, items: string, ip: InsertPoint): (r: seq<string>)
    ensures |r| <= |lines|
  {
    if |lines| == 0 then []
    else
      (if ContainsLine(ip, lines[0].lineNumber) then [items]
       else if lines[0].lineNumber in discarded then []
       else [lines[0].content])
      + InjectContent(lines[1..], discarded, items, ip)
  }

  /** `find_split_point`: the position of the first line with the given number. */
  function FindSplitPoint(half: ConflictHalf<Line>, line: LineNumber): (r: Option<nat>)
    ensures r.Some? ==> r.value < |half.lines| && half.lines[r.value].lineNumber == line
    ensures r.Some? ==> forall i :: 0 <= i < r.value ==> half.lines[i].lineNumber != line
    ensures r.None? <==> forall i :: 0 <= i < |half.lines| ==> half.lines[i].lineNumber != line
  {
    Position(half.lines, line)
  }

  function Position(lines: seq<Line>, line: LineNumber): (r: Option<nat>)
    ensures r.Some? ==> r.value < |lines| && lines[r.value].lineNumber == line
    ensures r.Some? ==> forall i :: 0 <= i < r.value ==> lines[i].lineNumber != line
    ensures r.None? <==> forall i :: 0 <= i < |lines| ==> lines[i].lineNumber != line
  {
    if |lines| == 0 then None
    else if lines[0].lineNumber == line then Some(0)
    else
      match Position(lines[1..], line)
      case None => None
      case Some(i) => Some(i + 1)
  }

  /** A line of the given number occurs among `lines`. */
  predicate Occurs(lines: seq<Line>, line: LineNumber) {
    exists i :: 0 <= i < |lines| && lines[i].lineNumber == line
  }

  /**
   `InsertPoint::try_split_conflict`: for an insert point inside a conflict
   whose two lines both occur in it, the conflict above the split lines and
   the conflict below them, both keeping the half names.
   */
  function TrySplitConflict(ip: InsertPoint, c: Conflict<Line>): (r: Option<(Conflict<Line>, Conflict<Line>)>)
    ensures r.Some? <==> ip.IntoConflict? && Occurs(c.left.lines, ip.left) && Occurs(c.right.lines, ip.right)
    ensures r.Some? ==> SplitsHalf(c.left, r.value.0.left, r.value.1.left, ip.left)
    ensures r.Some? ==> SplitsHalf(c.right, r.value.0.right, r.value.1.right, ip.right)
  {
    match ip
    case IntoConflict(left, right) =>
      (match (FindSplitPoint(c.left, left), FindSplitPoint(c.right, right))
       case (Some(l), Some(r)) =>
         var top := Conflict(ConflictHalf(c.left.name, c.left.lines[..l]), ConflictHalf(c.right.name, c.right.lines[..r]));
         var bottom := Conflict(ConflictHalf(c.left.name, c.left.lines[l + 1..]), ConflictHalf(c.right.name, c.right.lines[r + 1..]));
         Some((top, bottom))
       case _ => None)
    case _ => None
  }

  /**
   `top` and `bottom` keep the half's name and are the lines above and below
   the first line numbered `line`, which sits between them.
   */
  predicate SplitsHalf(half: ConflictHalf<Line>, top: ConflictHalf<Line>, bottom: ConflictHalf<Line>, line: LineNumber) {
    && top.name == half.name && bottom.name == half.name
    && |top.lines| < |half.lines|
    && half.lines == top.lines + [half.lines[|top.lines|]] + bottom.lines
    && half.lines[|top.lines|].lineNumber == line
    && !Occurs(top.lines, line)
  }

  /** `first_matching_line_number_in_conflict_half`: the number of the first discarded line. */
  function FirstMatching(lines: seq<Line>, discarded: set<LineNumber>): (r: Option<LineNumber>)
    ensures r.Some? ==> r.value in discarded
    ensures r.Some? ==>
      exists i :: 0 <= i < |lines| && lines[i].lineNumber == r.value && (forall j :: 0 <= j < i ==> lines[j].lineNumber !in discarded)
    ensures r.None? <==> forall i :: 0 <= i < |lines| ==> lines[i].lineNumber !in discarded
  {
    if |lines| == 0 then None
    else if lines[0].lineNumber in discarded then Some(lines[0].lineNumber)
    else
      var r := FirstMatching(lines[1..], discarded);
      if r.Some? then
        var i :| 0 <= i < |lines[1..]| && lines[1..][i].lineNumber == r.value &&
          (forall j :: 0 <= j < i ==> lines[1..][j].lineNumber !in discarded);
        assert lines[i + 1] == lines[1..][i];
        r
      else r
  }

  /** `Option::or`. */
  function Or<T>(a: Option<T>, b: Option<T>): Option<T> {
    if a.Some? then a else b
  }

  /**
   The loop of `find_insert_point` from some chunk on, given the first
   left-only and right-only hits so far: a discarded plain line, or a
   conflict with discarded lines on both sides, ends the search at once.
   */
  function ScanInsertPoint(chunks: seq<Chunk<Line>>, discarded: set<LineNumber>, leftPoint: Option<LineNumber>, rightPoint: Option<LineNumber>): InsertPoint
    decreases |chunks|
  {
    if |chunks| == 0 then CombinePoints(leftPoint, rightPoint)
    else
      match chunks[0]
      case LineChunk(line) =>
        if line.lineNumber in discarded then Once(line.lineNumber)
        else ScanInsertPoint(chunks[1..], discarded, leftPoint, rightPoint)
      case ConflictChunk(c) =>
        var l := FirstMatching(c.left.lines, discarded);
        var r := FirstMatching(c.right.lines, discarded);
        if l.Some? && r.Some? then IntoConflict(l.value, r.value)
        else ScanInsertPoint(chunks[1..], discarded, Or(leftPoint, l), Or(rightPoint, r))
  }

  /** After the loop: both one-sided hits give a split insert point, one gives a single point. */
  function CombinePoints(leftPoint: Option<LineNumber>, rightPoint: Option<LineNumber>): InsertPoint {
    match (leftPoint, rightPoint)
    case (Some(l), Some(r)) => IntoConflict(l, r)
    case (Some(p), None) => Once(p)
    case (None, Some(p)) => Once(p)
    case (None, None) => Nowhere
  }

  /** `find_insert_point`. */
  function FindInsertPoint(chunks: seq<Chunk<Line>>, discarded: set<LineNumber>): InsertPoint {
    ScanInsertPoint(chunks, discarded, None, None)
  }

  /** The numbers of some lines. */
  function Numbers(lines: seq<Line>): set<LineNumber> {
    set i | 0 <= i < |lines| :: lines[i].lineNumber
  }

  /** The lines of a chunk: a plain line, or a conflict's left lines then its right lines. */
  function ChunkLines(c: Chunk<Line>): seq<Line> {
    match c
    case LineChunk(l) => [l]
    case ConflictChunk(conflict) => conflict.left.lines + conflict.right.lines
  }

  /** Every line of the file, on both sides of every conflict, in file order. */
  function AllLines(chunks: seq<Chunk<Line>>): seq<Line> {
    if |chunks| == 0 then [] else ChunkLines(chunks[0]) + AllLines(chunks[1..])
  }

  /** The numbers of every line of every chunk. */
  function ChunkNumbers(chunks: seq<Chunk<Line>>): set<LineNumber> {
    Numbers(AllLines(chunks))
  }

  lemma NumbersAppend(a: seq<Line>, b: seq<Line>)
    ensures Numbers(a + b) == Numbers(a) + Numbers(b)
  {
    forall x | x in Numbers(a + b) ensures x in Numbers(a) + Numbers(b) {
      var i :| 0 <= i < |a + b| && (a + b)[i].lineNumber == x;
      if i >= |a| {
        assert b[i - |a|].lineNumber == x;
      }
    }
    forall x | x in Numbers(a) ensures x in Numbers(a + b) {
      var i :| 0 <= i < |a| && a[i].lineNumber == x;
      assert (a + b)[i] == a[i];
    }
    forall x | x in Numbers(b) ensures x in Numbers(a + b) {
      var i :| 0 <= i < |b| && b[i].lineNumber == x;
      assert (a + b)[|a| + i] == b[i];
    }
  }

  lemma NumbersTail(lines: seq<Line>)
    requires |lines| > 0
    ensures Numbers(lines) == {lines[0].lineNumber} + Numbers(lines[1..])
  {
    forall x | x in Numbers(lines[1..]) ensures x in Numbers(lines) {
      var i :| 0 <= i < |lines[1..]| && lines[1..][i].lineNumber == x;
      assert lines[i + 1] == lines[1..][i];
    }
    forall x | x in Numbers(lines) && x != lines[0].lineNumber ensures x in Numbers(lines[1..]) {
      var i :| 0 <= i < |lines| && lines[i].lineNumber == x;
      assert lines[1..][i - 1] == lines[i];
    }
  }

  lemma ChunkNumbersCons(chunks: seq<Chunk<Line>>)
    requires |chunks| > 0
    ensures ChunkNumbers(chunks) == Numbers(ChunkLines(chunks[0])) + ChunkNumbers(chunks[1..])
  {
    NumbersAppend(ChunkLines(chunks[0]), AllLines(chunks[1..]));
  }

  /** Every line an insert point names is a discarded line of the file. */
  predicate NamesDiscarded(ip: InsertPoint, numbers: set<LineNumber>, discarded: set<LineNumber>) {
    match ip
    case Nowhere => true
    case Once(p) => p in discarded && p in numbers
    case IntoConflict(l, r) => l in discarded && r in discarded && l in numbers && r in numbers
  }

  /** The first discarded line's number is the number of one of the lines, and there is none exactly when no line is discarded. */
  lemma FirstMatchingNumbers(lines: seq<Line>, discarded: set<LineNumber>)
    ensures FirstMatching(lines, discarded).Some? ==> FirstMatching(lines, discarded).value in Numbers(lines)
    ensures FirstMatching(lines, discarded).None? <==> Numbers(lines) * discarded == {}
  {
    var r := FirstMatching(lines, discarded);
    if r.Some? {
      var i :| 0 <= i < |lines| && lines[i].lineNumber == r.value && (forall j :: 0 <= j < i ==> lines[j].lineNumber !in discarded);
      assert r.value in Numbers(lines) * discarded;
    } else {
      forall x | x in Numbers(lines) ensures x !in discarded {
        var i :| 0 <= i < |lines| && lines[i].lineNumber == x;
      }
    }
  }

  /**
   The search names only discarded lines of the file (or hits carried in
   from earlier chunks), and finds nothing exactly when nothing was carried
   in and no line of the remaining chunks is discarded.
   */
  lemma {:induction false} ScanSound(chunks: seq<Chunk<Line>>, discarded: set<LineNumber>, leftPoint: Option<LineNumber>, rightPoint: Option<LineNumber>, seen: set<LineNumber>)
    requires leftPoint.Some? ==> leftPoint.value in discarded && leftPoint.value in seen
    requires rightPoint.Some? ==> rightPoint.value in discarded && rightPoint.value in seen
    ensures NamesDiscarded(ScanInsertPoint(chunks, discarded, leftPoint, rightPoint), seen + ChunkNumbers(chunks), discarded)
    ensures ScanInsertPoint(chunks, discarded, leftPoint, rightPoint).Nowhere? <==>
      leftPoint.None? && rightPoint.None? && ChunkNumbers(chunks) * discarded == {}
    decreases |chunks|
  {
    if |chunks| > 0 {
      var here := Numbers(ChunkLines(chunks[0]));
      ChunkNumbersCons(chunks);
      match chunks[0]
      case LineChunk(line) =>
        assert here == {line.lineNumber};
        if line.lineNumber !in discarded {
          ScanSound(chunks[1..], discarded, leftPoint, rightPoint, seen + here);
          ScanStep(ScanInsertPoint(chunks[1..], discarded, leftPoint, rightPoint), seen, here, ChunkNumbers(chunks[1..]),
                   ChunkNumbers(chunks), discarded, leftPoint, rightPoint, leftPoint, rightPoint);
        } else {
          assert line.lineNumber in ChunkNumbers(chunks) * discarded;
        }
      case ConflictChunk(c) =>
        var l := FirstMatching(c.left.lines, discarded);
        var r := FirstMatching(c.right.lines, discarded);
        FirstMatchingNumbers(c.left.lines, discarded);
        FirstMatchingNumbers(c.right.lines, discarded);
        NumbersAppend(c.left.lines, c.right.lines);
        if !(l.Some? && r.Some?) {
          ScanSound(chunks[1..], discarded, Or(leftPoint, l), Or(rightPoint, r), seen + here);
          ScanStep(ScanInsertPoint(chunks[1..], discarded, Or(leftPoint, l), Or(rightPoint, r)), seen, here, ChunkNumbers(chunks[1..]),
                   ChunkNumbers(chunks), discarded, leftPoint, rightPoint, Or(leftPoint, l), Or(rightPoint, r));
        }
    }
  }

  /** One chunk of the scan: what holds after it, given what holds for the chunks that follow. */
  lemma ScanStep(ip: InsertPoint, seen: set<LineNumber>, here: set<LineNumber>, later: set<LineNumber>, all: set<LineNumber>,
                 discarded: set<LineNumber>, leftPoint: Option<LineNumber>, rightPoint: Option<LineNumber>,
                 leftPoint': Option<LineNumber>, rightPoint': Option<LineNumber>)
    requires all == here + later
    requires NamesDiscarded(ip, seen + here + later, discarded)
    requires ip.Nowhere? <==> leftPoint'.None? && rightPoint'.None? && later * discarded == {}
    requires leftPoint'.None? && rightPoint'.None? <==> leftPoint.None? && rightPoint.None? && here * discarded == {}
    ensures NamesDiscarded(ip, seen + all, discarded)
    ensures ip.Nowhere? <==> leftPoint.None? && rightPoint.None? && all * discarded == {}
  {
    assert seen + here + later == seen + all;
    assert all * discarded == {} <==> here * discarded == {} && later * discarded == {};
  }

  /**
   `find_insert_point` names only discarded lines of the file, and names
   none exactly when no line of the file is discarded.
   */
  lemma FindInsertPointSound(chunks: seq<Chunk<Line>>, discarded: set<LineNumber>)
    ensures NamesDiscarded(FindInsertPoint(chunks, discarded), ChunkNumbers(chunks), discarded)
    ensures FindInsertPoint(chunks, discarded).Nowhere? <==> ChunkNumbers(chunks) * discarded == {}
  {
    ScanSound(chunks, discarded, None, None, {});
    assert {} + ChunkNumbers(chunks) == ChunkNumbers(chunks);
  }

  /**
   A chunk that ends the search on its own: a discarded plain line, or a
   conflict with a discarded line on each side.
   */
  predicate Stops(c: Chunk<Line>, discarded: set<LineNumber>) {
    match c
    case LineChunk(l) => l.lineNumber in discarded
    case ConflictChunk(conflict) =>
      FirstMatching(conflict.left.lines, discarded).Some? && FirstMatching(conflict.right.lines, discarded).Some?
  }

  lemma {:induction false} ScanFirstStop(chunks: seq<Chunk<Line>>, discarded: set<LineNumber>, leftPoint: Option<LineNumber>, rightPoint: Option<LineNumber>, k: nat)
    requires k < |chunks| && Stops(chunks[k], discarded)
    requires forall j :: 0 <= j < k ==> !Stops(chunks[j], discarded)
    ensures chunks[k].LineChunk? ==>
      ScanInsertPoint(chunks, discarded, leftPoint, rightPoint) == Once(chunks[k].line.lineNumber)
    ensures chunks[k].ConflictChunk? ==>
      ScanInsertPoint(chunks, discarded, leftPoint, rightPoint) ==
        IntoConflict(FirstMatching(chunks[k].conflict.left.lines, discarded).value, FirstMatching(chunks[k].conflict.right.lines, discarded).value)
    decreases k
  {
    if k > 0 {
      assert !Stops(chunks[0], discarded);
      match chunks[0]
      case LineChunk(_) =>
        ScanFirstStop(chunks[1..], discarded, leftPoint, rightPoint, k - 1);
      case ConflictChunk(c) =>
        var l := FirstMatching(c.left.lines, discarded);
        var r := FirstMatching(c.right.lines, discarded);
        ScanFirstStop(chunks[1..], discarded, Or(leftPoint, l), Or(rightPoint, r), k - 1);
    }
  }

  /**
   The preferred insert point: the first chunk that ends the search decides
   it, whatever one-sided hits came before — a discarded plain line is the
   single insert point, a conflict with discarded lines on both sides gives
   the first discarded line of each side.
   */
  lemma FindInsertPointFirstStop(chunks: seq<Chunk<Line>>, discarded: set<LineNumber>, k: nat)
    requires k < |chunks| && Stops(chunks[k], discarded)
    requires forall j :: 0 <= j < k ==> !Stops(chunks[j], discarded)
    ensures chunks[k].LineChunk? ==> FindInsertPoint(chunks, discarded) == Once(chunks[k].line.lineNumber)
    ensures chunks[k].ConflictChunk? ==>
      FindInsertPoint(chunks, discarded) ==
        IntoConflict(FirstMatching(chunks[k].conflict.left.lines, discarded).value, FirstMatching(chunks[k].conflict.right.lines, discarded).value)
  {
    ScanFirstStop(chunks, discarded, None, None, k);
  }

  /** One half of a conflict. */
  function HalfOf<L>(c: Conflict<L>, side: Side): ConflictHalf<L> {
    if side == Left then c.left else c.right
  }

  /** The lines of one side of every conflict, in file order; plain lines are left out. */
  function ConflictSideLines(chunks: seq<Chunk<Line>>, side: Side): seq<Line> {
    if |chunks| == 0 then []
    else
      (match chunks[0]
       case LineChunk(_) => []
       case ConflictChunk(c) => HalfOf(c, side).lines)
      + ConflictSideLines(chunks[1..], side)
  }

  /** The first discarded line of a concatenation is the first one of the front part, if any. */
  lemma {:induction false} FirstMatchingAppend(a: seq<Line>, b: seq<Line>, discarded: set<LineNumber>)
    ensures FirstMatching(a + b, discarded) == Or(FirstMatching(a, discarded), FirstMatching(b, discarded))
    decreases |a|
  {
    if |a| > 0 {
      assert (a + b)[0] == a[0] && (a + b)[1..] == a[1..] + b;
      FirstMatchingAppend(a[1..], b, discarded);
    } else {
      assert a + b == b;
    }
  }

  lemma {:induction false} ScanNoStop(chunks: seq<Chunk<Line>>, discarded: set<LineNumber>, leftPoint: Option<LineNumber>, rightPoint: Option<LineNumber>)
    requires forall j :: 0 <= j < |chunks| ==> !Stops(chunks[j], discarded)
    ensures ScanInsertPoint(chunks, discarded, leftPoint, rightPoint) ==
      CombinePoints(Or(leftPoint, FirstMatching(ConflictSideLines(chunks, Left), discarded)),
                    Or(rightPoint, FirstMatching(ConflictSideLines(chunks, Right), discarded)))
    decreases |chunks|
  {
    if |chunks| == 0 {
      assert ConflictSideLines(chunks, Left) == [] && ConflictSideLines(chunks, Right) == [];
    } else {
      assert !Stops(chunks[0], discarded);
      assert forall j :: 0 <= j < |chunks[1..]| ==> chunks[1..][j] == chunks[j + 1];
      match chunks[0]
      case LineChunk(_) =>
        ScanNoStop(chunks[1..], discarded, leftPoint, rightPoint);
        assert ConflictSideLines(chunks, Left) == ConflictSideLines(chunks[1..], Left);
        assert ConflictSideLines(chunks, Right) == ConflictSideLines(chunks[1..], Right);
      case ConflictChunk(c) =>
        var l := FirstMatching(c.left.lines, discarded);
        var r := FirstMatching(c.right.lines, discarded);
        ScanNoStop(chunks[1..], discarded, Or(leftPoint, l), Or(rightPoint, r));
        FirstMatchingAppend(c.left.lines, ConflictSideLines(chunks[1..], Left), discarded);
        FirstMatchingAppend(c.right.lines, ConflictSideLines(chunks[1..], Right), discarded);
    }
  }

  /**
   When no chunk ends the search, the imports go to the first discarded line
   among all conflicts' left lines and the first among their right lines:
   into both sides when there are both, into the one side otherwise.
   */
  lemma FindInsertPointNoStop(chunks: seq<Chunk<Line>>, discarded: set<LineNumber>)
    requires forall j :: 0 <= j < |chunks| ==> !Stops(chunks[j], discarded)
    ensures FindInsertPoint(chunks, discarded) ==
      CombinePoints(FirstMatching(ConflictSideLines(chunks, Left), discarded), FirstMatching(ConflictSideLines(chunks, Right), discarded))
  {
    ScanNoStop(chunks, discarded, None, None);
  }

  /** `find_insert_point` as the source writes it: one pass with early returns, then the combination. */
  method FindInsertPointLoop(chunks: seq<Chunk<Line>>, discarded: set<LineNumber>) returns (ip: InsertPoint)
    ensures NamesDiscarded(ip, ChunkNumbers(chunks), discarded)
    ensures ip.Nowhere? <==> ChunkNumbers(chunks) * discarded == {}
    ensures ip == FindInsertPoint(chunks, discarded)
  {
    FindInsertPointSound(chunks, discarded);
    var leftPoint: Option<LineNumber> := None;
    var rightPoint: Option<LineNumber> := None;
    var i := 0;
    while i < |chunks|
      invariant 0 <= i <= |chunks|
      invariant ScanInsertPoint(chunks[i..], discarded, leftPoint, rightPoint) == FindInsertPoint(chunks, discarded)
    {
      match chunks[i] {
        case LineChunk(line) =>
          if line.lineNumber in discarded {
            return Once(line.lineNumber);
          }
        case ConflictChunk(c) =>
          var l := FirstMatching(c.left.lines, discarded);
          var r := FirstMatching(c.right.lines, discarded);
          match (l, r) {
            case (Some(left), Some(right)) =>
              return IntoConflict(left, right);
            case (Some(left), None) =>
              leftPoint := Or(leftPoint, Some(left));
            case (None, Some(right)) =>
              rightPoint := Or(rightPoint, Some(right));
            case (None, None) =>
          }
      }
      assert chunks[i..][1..] == chunks[i + 1..];
      i := i + 1;
    }
    ip := CombinePoints(leftPoint, rightPoint);
  }

  /** A conflict with its discarded lines left out of both halves. */
  function FilterConflict(c: Conflict<Line>, discarded: set<LineNumber>): Conflict<string> {
    Conflict(ConflictHalf(c.left.name, FilteredLines(c.left.lines, discarded)),
             ConflictHalf(c.right.name, FilteredLines(c.right.lines, discarded)))
  }

  /** A conflict with its lines' contents, nothing left out. */
  function ContentConflict(c: Conflict<Line>): Conflict<string> {
    Conflict(ConflictHalf(c.left.name, Contents(c.left.lines)), ConflictHalf(c.right.name, Contents(c.right.lines)))
  }

  /** A conflict with the imports in place of its insert-point lines and its other discarded lines left out. */
  function InjectConflict(c: Conflict<Line>, discarded: set<LineNumber>, items: string, ip: InsertPoint): Conflict<string> {
    Conflict(ConflictHalf(c.left.name, InjectContent(c.left.lines, discarded, items, ip)),
             ConflictHalf(c.right.name, InjectContent(c.right.lines, discarded, items, ip)))
  }

  /** One chunk after the imports are written: a kept plain line, or a conflict with its discarded lines left out. */
  function WriteChunk(c: Chunk<Line>, discarded: set<LineNumber>): seq<string> {
    match c
    case LineChunk(l) => if l.lineNumber in discarded then [] else [l.content]
    case ConflictChunk(conflict) => WriteConflict(FilterConflict(conflict, discarded))
  }

  /** The second loop of `write_corrected_file`: the rest of the file, discarded lines left out. */
  function WriteRest(chunks: seq<Chunk<Line>>, discarded: set<LineNumber>): seq<string> {
    if |chunks| == 0 then [] else WriteChunk(chunks[0], discarded) + WriteRest(chunks[1..], discarded)
  }

  /**
   The first loop of `write_corrected_file`: chunks are written until the
   imports replace an insert-point plain line or split a conflict, and the
   rest of the file is then written by the second loop.
   */
  function WriteUntilInserted(chunks: seq<Chunk<Line>>, discarded: set<LineNumber>, items: string, ip: InsertPoint): seq<string> {
    if |chunks| == 0 then []
    else
      match chunks[0]
      case LineChunk(l) =>
        if ContainsLine(ip, l.lineNumber) then [items] + WriteRest(chunks[1..], discarded)
        else WriteChunk(chunks[0], discarded) + WriteUntilInserted(chunks[1..], discarded, items, ip)
      case ConflictChunk(c) =>
        match TrySplitConflict(ip, c)
        case Some(split) =>
          WriteConflict(ContentConflict(split.0)) + [items] + WriteConflict(FilterConflict(split.1, discarded))
          + WriteRest(chunks[1..], discarded)
        case None =>
          WriteConflict(InjectConflict(c, discarded, items, ip)) + WriteUntilInserted(chunks[1..], discarded, items, ip)
  }

  /**
   `write_corrected_file`: the pieces written for the file with the
   discarded lines left out and the formatted imports written at the
   insert point.
   */
  function WriteCorrectedFile(chunks: seq<Chunk<Line>>, discarded: set<LineNumber>, items: string): seq<string> {
    WriteUntilInserted(chunks, discarded, items, FindInsertPoint(chunks, discarded))
  }

  lemma Associative<T>(a: seq<T>, b: seq<T>, c: seq<T>)
    ensures a + b + c == a + (b + c)
  {
  }

  lemma Regroup<T>(a: seq<T>, b: seq<T>, c: seq<T>, d: seq<T>, e: seq<T>)
    ensures a + (b + c + d + e) == a + b + c + d + e
  {
  }

  lemma UntilInsertedLine(chunks: seq<Chunk<Line>>, discarded: set<LineNumber>, items: string, ip: InsertPoint)
    requires |chunks| > 0 && chunks[0].LineChunk?
    ensures ContainsLine(ip, chunks[0].line.lineNumber) ==>
      WriteUntilInserted(chunks, discarded, items, ip) == [items] + WriteRest(chunks[1..], discarded)
    ensures !ContainsLine(ip, chunks[0].line.lineNumber) ==>
      WriteUntilInserted(chunks, discarded, items, ip) == WriteChunk(chunks[0], discarded) + WriteUntilInserted(chunks[1..], discarded, items, ip)
  {
  }

  lemma UntilInsertedConflict(chunks: seq<Chunk<Line>>, discarded: set<LineNumber>, items: string, ip: InsertPoint)
    requires |chunks| > 0 && chunks[0].ConflictChunk?
    ensures TrySplitConflict(ip, chunks[0].conflict).Some? ==>
      var split := TrySplitConflict(ip, chunks[0].conflict).value;
      WriteUntilInserted(chunks, discarded, items, ip) ==
        WriteConflict(ContentConflict(split.0)) + [items] + WriteConflict(FilterConflict(split.1, discarded)) + WriteRest(chunks[1..], discarded)
    ensures TrySplitConflict(ip, chunks[0].conflict).None? ==>
      WriteUntilInserted(chunks, discarded, items, ip) ==
        WriteConflict(InjectConflict(chunks[0].conflict, discarded, items, ip)) + WriteUntilInserted(chunks[1..], discarded, items, ip)
  {
  }

  /**
   The first loop of `write_corrected_file`: what it writes, and the index of
   the chunk the second loop resumes from.
   */
  method WriteUntilInsertedLoop(chunks: seq<Chunk<Line>>, discarded: set<LineNumber>, items: string, ip: InsertPoint)
    returns (out: seq<string>, next: nat)
    ensures next <= |chunks|
    ensures out + WriteRest(chunks[next..], discarded) == WriteUntilInserted(chunks, discarded, items, ip)
  {
    out := [];
    var i := 0;
    var inserted := false;
    while i < |chunks| && !inserted
      invariant 0 <= i <= |chunks|
      invariant !inserted ==> out + WriteUntilInserted(chunks[i..], discarded, items, ip) == WriteUntilInserted(chunks, discarded, items, ip)
      invariant inserted ==> out + WriteRest(chunks[i..], discarded) == WriteUntilInserted(chunks, discarded, items, ip)
    {
      var rest := chunks[i..];
      assert rest[0] == chunks[i] && rest[1..] == chunks[i + 1..];
      var piece: seq<string>;
      match chunks[i] {
        case LineChunk(line) =>
          UntilInsertedLine(rest, discarded, items, ip);
          if ContainsLine(ip, line.lineNumber) {
            piece := [items];
            inserted := true;
          } else if line.lineNumber !in discarded {
            piece := [line.content];
          } else {
            piece := [];
          }
        case ConflictChunk(c) =>
          UntilInsertedConflict(rest, discarded, items, ip);
          var split := TrySplitConflict(ip, c);
          if split.Some? {
            piece := WriteConflict(ContentConflict(split.value.0)) + [items] + WriteConflict(FilterConflict(split.value.1, discarded));
            inserted := true;
          } else {
            piece := WriteConflict(InjectConflict(c, discarded, items, ip));
          }
      }
      var tail := if inserted then WriteRest(chunks[i + 1..], discarded) else WriteUntilInserted(chunks[i + 1..], discarded, items, ip);
      assert WriteUntilInserted(rest, discarded, items, ip) == piece + tail;
      Associative(out, piece, tail);
      out := out + piece;
      i := i + 1;
    }
    if !inserted {
      assert chunks[i..] == [];
    }
    next := i;
  }

  /** The second loop of `write_corrected_file`. */
  method WriteRestLoop(chunks: seq<Chunk<Line>>, discarded: set<LineNumber>) returns (out: seq<string>)
    ensures out == WriteRest(chunks, discarded)
  {
    out := [];
    var i := 0;
    while i < |chunks|
      invariant 0 <= i <= |chunks|
      invariant out + WriteRest(chunks[i..], discarded) == WriteRest(chunks, discarded)
    {
      var rest := chunks[i..];
      assert rest[0] == chunks[i] && rest[1..] == chunks[i + 1..];
      var piece := WriteChunk(chunks[i], discarded);
      var tail := WriteRest(chunks[i + 1..], discarded);
      assert WriteRest(rest, discarded) == piece + tail;
      Associative(out, piece, tail);
      out := out + piece;
      i := i + 1;
    }
  }

  /** `write_corrected_file` as the source writes it: the insert point, then two loops over one iterator. */
  method WriteCorrectedFileLoop(chunks: seq<Chunk<Line>>, discarded: set<LineNumber>, items: string) returns (out: seq<string>)
    ensures out == WriteCorrectedFile(chunks, discarded, items)
  {
    var ip := FindInsertPointLoop(chunks, discarded);
    var next;
    out, next := WriteUntilInsertedLoop(chunks, discarded, items, ip);
    var rest := WriteRestLoop(chunks[next..], discarded);
    out := out + rest;
  }

  /** With no line discarded, filtering keeps every line's content. */
  lemma {:induction false} FilteredNothing(lines: seq<Line>, discarded: set<LineNumber>)
    requires Numbers(lines) * discarded == {}
    ensures FilteredLines(lines, discarded) == Contents(lines)
    decreases |lines|
  {
    if |lines| > 0 {
      NumbersTail(lines);
      assert lines[0].lineNumber in Numbers(lines);
      assert lines[0].lineNumber !in Numbers(lines) * discarded;
      FilteredNothing(lines[1..], discarded);
      assert Contents(lines) == [lines[0].content] + Contents(lines[1..]);
    }
  }

  /** Lines none of which is an insert-point line are injected exactly as they are filtered. */
  lemma {:induction false} InjectAway(lines: seq<Line>, discarded: set<LineNumber>, items: string, ip: InsertPoint)
    requires forall i :: 0 <= i < |lines| ==> !ContainsLine(ip, lines[i].lineNumber)
    ensures InjectContent(lines, discarded, items, ip) == FilteredLines(lines, discarded)
    decreases |lines|
  {
    if |lines| > 0 {
      assert !ContainsLine(ip, lines[0].lineNumber);
      InjectAway(lines[1..], discarded, items, ip);
    }
  }

  lemma {:induction false} WriteRestAppend(a: seq<Chunk<Line>>, b: seq<Chunk<Line>>, discarded: set<LineNumber>)
    ensures WriteRest(a + b, discarded) == WriteRest(a, discarded) + WriteRest(b, discarded)
    decreases |a|
  {
    if |a| == 0 {
      assert a + b == b;
    } else {
      assert (a + b)[0] == a[0] && (a + b)[1..] == a[1..] + b;
      WriteRestAppend(a[1..], b, discarded);
      Associative(WriteChunk(a[0], discarded), WriteRest(a[1..], discarded), WriteRest(b, discarded));
    }
  }

  /** A conflict none of whose lines is an insert-point line is not split. */
  lemma NoSplitAway(c: Conflict<Line>, ip: InsertPoint)
    requires forall x :: x in Numbers(c.left.lines) + Numbers(c.right.lines) ==> !ContainsLine(ip, x)
    ensures TrySplitConflict(ip, c).None?
  {
    if TrySplitConflict(ip, c).Some? {
      var i :| 0 <= i < |c.left.lines| && c.left.lines[i].lineNumber == ip.left;
      assert ip.left in Numbers(c.left.lines) + Numbers(c.right.lines);
      assert ContainsLine(ip, ip.left);
      assert false;
    }
  }

  /** A chunk none of whose lines is an insert-point line. */
  predicate Passes(c: Chunk<Line>, ip: InsertPoint) {
    forall i :: 0 <= i < |ChunkLines(c)| ==> !ContainsLine(ip, ChunkLines(c)[i].lineNumber)
  }

  /** A first chunk that holds no insert-point line is written as the second loop writes it. */
  lemma UntilInsertedPasses(chunks: seq<Chunk<Line>>, discarded: set<LineNumber>, items: string, ip: InsertPoint)
    requires |chunks| > 0 && Passes(chunks[0], ip)
    ensures WriteUntilInserted(chunks, discarded, items, ip) ==
      WriteChunk(chunks[0], discarded) + WriteUntilInserted(chunks[1..], discarded, items, ip)
  {
    match chunks[0]
    case LineChunk(l) =>
      assert ChunkLines(chunks[0])[0] == l;
      UntilInsertedLine(chunks, discarded, items, ip);
    case ConflictChunk(c) =>
      var all := ChunkLines(chunks[0]);
      forall i | 0 <= i < |c.left.lines| ensures !ContainsLine(ip, c.left.lines[i].lineNumber) {
        assert all[i] == c.left.lines[i];
      }
      forall i | 0 <= i < |c.right.lines| ensures !ContainsLine(ip, c.right.lines[i].lineNumber) {
        assert all[|c.left.lines| + i] == c.right.lines[i];
      }
      NoSplitAway(c, ip);
      InjectAway(c.left.lines, discarded, items, ip);
      InjectAway(c.right.lines, discarded, items, ip);
      assert InjectConflict(c, discarded, items, ip) == FilterConflict(c, discarded);
      UntilInsertedConflict(chunks, discarded, items, ip);
  }

  /** The first loop passes chunks that hold no insert-point line, writing them as the second loop would. */
  lemma {:induction false} UntilInsertedPassesAll(chunks: seq<Chunk<Line>>, discarded: set<LineNumber>, items: string, ip: InsertPoint, k: nat)
    requires k <= |chunks|
    requires forall j :: 0 <= j < k ==> Passes(chunks[j], ip)
    ensures WriteUntilInserted(chunks, discarded, items, ip) ==
      WriteRest(chunks[..k], discarded) + WriteUntilInserted(chunks[k..], discarded, items, ip)
    decreases k
  {
    if k == 0 {
      assert chunks[..0] == [] && chunks[0..] == chunks;
    } else {
      var front := chunks[..k];
      forall j | 0 <= j < k - 1 ensures Passes(chunks[1..][j], ip) {
        assert chunks[1..][j] == chunks[j + 1];
      }
      UntilInsertedPasses(chunks, discarded, items, ip);
      UntilInsertedPassesAll(chunks[1..], discarded, items, ip, k - 1);
      assert chunks[1..][k - 1..] == chunks[k..];
      var first := WriteChunk(chunks[0], discarded);
      var middle := WriteRest(front[1..], discarded);
      var tail := WriteUntilInserted(chunks[k..], discarded, items, ip);
      assert front[0] == chunks[0] && front[1..] == chunks[1..][..k - 1];
      assert WriteRest(front, discarded) == first + middle;
      Associative(first, middle, tail);
    }
  }

  /** No insert-point line among the first `k` chunks' numbers: no chunk among them holds one. */
  lemma {:induction false} PassesFront(chunks: seq<Chunk<Line>>, ip: InsertPoint, k: nat)
    requires k <= |chunks|
    requires forall x :: x in ChunkNumbers(chunks[..k]) ==> !ContainsLine(ip, x)
    ensures forall j :: 0 <= j < k ==> Passes(chunks[j], ip)
    decreases k
  {
    if k > 0 {
      var front := chunks[..k];
      assert front[0] == chunks[0] && front[1..] == chunks[1..][..k - 1];
      ChunkNumbersCons(front);
      var first := ChunkLines(chunks[0]);
      forall i | 0 <= i < |first| ensures !ContainsLine(ip, first[i].lineNumber) {
        assert first[i].lineNumber in Numbers(first);
      }
      PassesFront(chunks[1..], ip, k - 1);
      forall j | 1 <= j < k ensures Passes(chunks[j], ip) {
        assert chunks[j] == chunks[1..][j - 1];
      }
    }
  }

  /**
   Chunks that hold no insert-point line are written as the rest of the
   file is: the first loop passes them without writing the imports.
   */
  lemma UntilInsertedSkips(chunks: seq<Chunk<Line>>, discarded: set<LineNumber>, items: string, ip: InsertPoint, k: nat)
    requires k <= |chunks|
    requires forall x :: x in ChunkNumbers(chunks[..k]) ==> !ContainsLine(ip, x)
    ensures WriteUntilInserted(chunks, discarded, items, ip) ==
      WriteRest(chunks[..k], discarded) + WriteUntilInserted(chunks[k..], discarded, items, ip)
  {
    PassesFront(chunks, ip, k);
    UntilInsertedPassesAll(chunks, discarded, items, ip, k);
  }

  /** Writing the rest with nothing to discard there is writing it with nothing discarded at all. */
  lemma {:induction false} WriteRestUndiscarded(chunks: seq<Chunk<Line>>, discarded: set<LineNumber>)
    requires ChunkNumbers(chunks) * discarded == {}
    ensures WriteRest(chunks, discarded) == WriteRest(chunks, {})
    decreases |chunks|
  {
    if |chunks| > 0 {
      ChunkNumbersCons(chunks);
      assert ChunkNumbers(chunks[1..]) * discarded == {};
      WriteRestUndiscarded(chunks[1..], discarded);
      match chunks[0]
      case LineChunk(l) =>
        assert l.lineNumber in Numbers(ChunkLines(chunks[0]));
        assert l.lineNumber !in ChunkNumbers(chunks) * discarded;
      case ConflictChunk(c) =>
        NumbersAppend(c.left.lines, c.right.lines);
        assert Numbers(c.left.lines) * discarded == {} && Numbers(c.right.lines) * discarded == {};
        FilteredNothing(c.left.lines, discarded);
        FilteredNothing(c.right.lines, discarded);
        FilteredNothing(c.left.lines, {});
        FilteredNothing(c.right.lines, {});
    }
  }

  /**
   With no line discarded the imports are not written, and the file is
   written back as it was (a conflict whose halves agree collapses to one
   copy of them).
   */
  lemma WriteNothingDiscarded(chunks: seq<Chunk<Line>>, discarded: set<LineNumber>, items: string)
    requires ChunkNumbers(chunks) * discarded == {}
    ensures WriteCorrectedFile(chunks, discarded, items) == WriteRest(chunks, {})
  {
    FindInsertPointSound(chunks, discarded);
    assert chunks[..|chunks|] == chunks && chunks[|chunks|..] == [];
    UntilInsertedSkips(chunks, discarded, items, Nowhere, |chunks|);
    WriteRestUndiscarded(chunks, discarded);
  }

  /** No two lines share a number. */
  predicate DistinctNumbers(lines: seq<Line>) {
    forall i, j :: 0 <= i < j < |lines| ==> lines[i].lineNumber != lines[j].lineNumber
  }

  lemma {:induction false} AllLinesAppend(a: seq<Chunk<Line>>, b: seq<Chunk<Line>>)
    ensures AllLines(a + b) == AllLines(a) + AllLines(b)
    decreases |a|
  {
    if |a| == 0 {
      assert a + b == b;
    } else {
      assert (a + b)[0] == a[0] && (a + b)[1..] == a[1..] + b;
      AllLinesAppend(a[1..], b);
      Associative(ChunkLines(a[0]), AllLines(a[1..]), AllLines(b));
    }
  }

  /** With distinct numbers, no line before chunk `k` shares a number with a line of chunk `k`. */
  lemma DistinctSplit(chunks: seq<Chunk<Line>>, k: nat)
    requires k < |chunks| && DistinctNumbers(AllLines(chunks))
    ensures ChunkNumbers(chunks[..k]) * Numbers(ChunkLines(chunks[k])) == {}
  {
    AllLinesAt(chunks, k);
    DisjointFront(AllLines(chunks), AllLines(chunks[..k]), ChunkLines(chunks[k]), AllLines(chunks[k + 1..]));
  }

  /** The lines of the chunks: those before chunk `k`, those of chunk `k`, then those after it. */
  lemma AllLinesAt(chunks: seq<Chunk<Line>>, k: nat)
    requires k < |chunks|
    ensures AllLines(chunks) == AllLines(chunks[..k]) + (ChunkLines(chunks[k]) + AllLines(chunks[k + 1..]))
  {
    assert chunks == chunks[..k] + chunks[k..];
    AllLinesAppend(chunks[..k], chunks[k..]);
    var rest := chunks[k..];
    assert rest[0] == chunks[k] && rest[1..] == chunks[k + 1..];
  }

  /** In lines with distinct numbers, a front part shares no number with the part after it. */
  lemma DisjointFront(all: seq<Line>, a: seq<Line>, b: seq<Line>, c: seq<Line>)
    requires all == a + (b + c) && DistinctNumbers(all)
    ensures Numbers(a) * Numbers(b) == {}
  {
    forall i, j | 0 <= i < |a| && 0 <= j < |b| ensures a[i].lineNumber != b[j].lineNumber {
      assert all[i] == a[i] && all[|a| + j] == b[j];
    }
    forall x | x in Numbers(a) ensures x !in Numbers(b) {
      var i :| 0 <= i < |a| && a[i].lineNumber == x;
    }
  }

  /**
   The first discarded line of a half is where the half is split, and the
   lines above it hold no discarded line (the source leaves the top part
   unfiltered on this ground).
   */
  lemma HalfTopClean(lines: seq<Line>, discarded: set<LineNumber>)
    requires FirstMatching(lines, discarded).Some?
    ensures Position(lines, FirstMatching(lines, discarded).value).Some?
    ensures Numbers(lines[..Position(lines, FirstMatching(lines, discarded).value).value]) * discarded == {}
  {
    var l := FirstMatching(lines, discarded).value;
    var i :| 0 <= i < |lines| && lines[i].lineNumber == l && (forall j :: 0 <= j < i ==> lines[j].lineNumber !in discarded);
    var pos := Position(lines, l);
    assert pos.Some?;
    var top := lines[..pos.value];
    assert pos.value <= i;
    forall x | x in Numbers(top) ensures x !in discarded {
      var j :| 0 <= j < |top| && top[j].lineNumber == x;
      assert lines[j] == top[j];
    }
  }

  /**
   A conflict with a discarded line on each side is split at the first
   discarded line of each side, and neither top half holds a discarded line.
   */
  lemma SplitTopClean(c: Conflict<Line>, discarded: set<LineNumber>)
    requires Stops(ConflictChunk(c), discarded)
    ensures TrySplitConflict(IntoConflict(FirstMatching(c.left.lines, discarded).value, FirstMatching(c.right.lines, discarded).value), c).Some?
    ensures ContentConflict(TrySplitConflict(IntoConflict(FirstMatching(c.left.lines, discarded).value, FirstMatching(c.right.lines, discarded).value), c).value.0)
      == FilterConflict(TrySplitConflict(IntoConflict(FirstMatching(c.left.lines, discarded).value, FirstMatching(c.right.lines, discarded).value), c).value.0, discarded)
  {
    var l := FirstMatching(c.left.lines, discarded).value;
    var r := FirstMatching(c.right.lines, discarded).value;
    HalfTopClean(c.left.lines, discarded);
    HalfTopClean(c.right.lines, discarded);
    var top := TrySplitConflict(IntoConflict(l, r), c).value.0;
    assert top.left.lines == c.left.lines[..Position(c.left.lines, l).value];
    assert top.right.lines == c.right.lines[..Position(c.right.lines, r).value];
    FilteredNothing(top.left.lines, discarded);
    FilteredNothing(top.right.lines, discarded);
  }

  /**
   When the first chunk to end the search is a discarded plain line, the
   file is written filtered, with the imports in place of that line and
   nowhere else.
   */
  lemma WriteAtPlainLine(chunks: seq<Chunk<Line>>, discarded: set<LineNumber>, items: string, k: nat)
    requires k < |chunks| && chunks[k].LineChunk? && chunks[k].line.lineNumber in discarded
    requires forall j :: 0 <= j < k ==> !Stops(chunks[j], discarded)
    requires DistinctNumbers(AllLines(chunks))
    ensures WriteCorrectedFile(chunks, discarded, items) ==
      WriteRest(chunks[..k], discarded) + [items] + WriteRest(chunks[k + 1..], discarded)
  {
    var p := chunks[k].line.lineNumber;
    FindInsertPointFirstStop(chunks, discarded, k);
    DistinctSplit(chunks, k);
    assert ChunkLines(chunks[k])[0].lineNumber == p;
    assert p in Numbers(ChunkLines(chunks[k]));
    forall x | x in ChunkNumbers(chunks[..k]) ensures !ContainsLine(Once(p), x) {
      assert x !in ChunkNumbers(chunks[..k]) * Numbers(ChunkLines(chunks[k]));
    }
    UntilInsertedSkips(chunks, discarded, items, Once(p), k);
    var rest := chunks[k..];
    assert rest[0] == chunks[k] && rest[1..] == chunks[k + 1..];
    UntilInsertedLine(rest, discarded, items, Once(p));
    Associative(WriteRest(chunks[..k], discarded), [items], WriteRest(chunks[k + 1..], discarded));
  }

  /**
   When the first chunk to end the search is a conflict with discarded lines
   on both sides, the file is written filtered, with that conflict split at
   the first discarded line of each side and the imports written once
   between the two parts.
   */
  lemma WriteIntoConflict(chunks: seq<Chunk<Line>>, discarded: set<LineNumber>, items: string, k: nat)
    requires k < |chunks| && chunks[k].ConflictChunk? && Stops(chunks[k], discarded)
    requires forall j :: 0 <= j < k ==> !Stops(chunks[j], discarded)
    requires DistinctNumbers(AllLines(chunks))
    ensures FindInsertPoint(chunks, discarded) ==
      IntoConflict(FirstMatching(chunks[k].conflict.left.lines, discarded).value, FirstMatching(chunks[k].conflict.right.lines, discarded).value)
    ensures TrySplitConflict(FindInsertPoint(chunks, discarded), chunks[k].conflict).Some?
    ensures WriteCorrectedFile(chunks, discarded, items) ==
      WriteRest(chunks[..k], discarded)
      + WriteConflict(FilterConflict(TrySplitConflict(FindInsertPoint(chunks, discarded), chunks[k].conflict).value.0, discarded))
      + [items]
      + WriteConflict(FilterConflict(TrySplitConflict(FindInsertPoint(chunks, discarded), chunks[k].conflict).value.1, discarded))
      + WriteRest(chunks[k + 1..], discarded)
  {
    var c := chunks[k].conflict;
    FindInsertPointFirstStop(chunks, discarded, k);
    var ip := FindInsertPoint(chunks, discarded);
    SplitTopClean(c, discarded);
    var split := TrySplitConflict(ip, c).value;
    FrontAvoidsConflictPoint(chunks, discarded, k, ip);
    UntilInsertedSkips(chunks, discarded, items, ip, k);
    UntilInsertedConflictAt(chunks, discarded, items, ip, k);
    Regroup(WriteRest(chunks[..k], discarded), WriteConflict(FilterConflict(split.0, discarded)), [items],
            WriteConflict(FilterConflict(split.1, discarded)), WriteRest(chunks[k + 1..], discarded));
  }

  /** With distinct numbers, the lines before a stopping conflict hold neither of the lines it is split at. */
  lemma FrontAvoidsConflictPoint(chunks: seq<Chunk<Line>>, discarded: set<LineNumber>, k: nat, ip: InsertPoint)
    requires k < |chunks| && chunks[k].ConflictChunk? && Stops(chunks[k], discarded)
    requires DistinctNumbers(AllLines(chunks))
    requires ip == IntoConflict(FirstMatching(chunks[k].conflict.left.lines, discarded).value, FirstMatching(chunks[k].conflict.right.lines, discarded).value)
    ensures forall x :: x in ChunkNumbers(chunks[..k]) ==> !ContainsLine(ip, x)
  {
    var c := chunks[k].conflict;
    DistinctSplit(chunks, k);
    FirstMatchingNumbers(c.left.lines, discarded);
    FirstMatchingNumbers(c.right.lines, discarded);
    NumbersAppend(c.left.lines, c.right.lines);
    assert ip.left in Numbers(ChunkLines(chunks[k])) && ip.right in Numbers(ChunkLines(chunks[k]));
    forall x | x in ChunkNumbers(chunks[..k]) ensures !ContainsLine(ip, x) {
      assert x !in ChunkNumbers(chunks[..k]) * Numbers(ChunkLines(chunks[k]));
    }
  }

  /** Writing from a conflict that is split with a clean top part: top, imports, filtered bottom, then the rest. */
  lemma UntilInsertedConflictAt(chunks: seq<Chunk<Line>>, discarded: set<LineNumber>, items: string, ip: InsertPoint, k: nat)
    requires k < |chunks| && chunks[k].ConflictChunk?
    requires TrySplitConflict(ip, chunks[k].conflict).Some?
    requires ContentConflict(TrySplitConflict(ip, chunks[k].conflict).value.0) == FilterConflict(TrySplitConflict(ip, chunks[k].conflict).value.0, discarded)
    ensures WriteUntilInserted(chunks[k..], discarded, items, ip) ==
      WriteConflict(FilterConflict(TrySplitConflict(ip, chunks[k].conflict).value.0, discarded)) + [items]
      + WriteConflict(FilterConflict(TrySplitConflict(ip, chunks[k].conflict).value.1, discarded)) + WriteRest(chunks[k + 1..], discarded)
  {
    var rest := chunks[k..];
    assert rest[0] == chunks[k] && rest[1..] == chunks[k + 1..];
    UntilInsertedConflict(rest, discarded, items, ip);
  }

  /** Every plain line and conflict written independently, the imports in place of insert-point lines. */
  function WriteInjected(chunks: seq<Chunk<Line>>, discarded: set<LineNumber>, items: string, ip: InsertPoint): seq<string> {
    if |chunks| == 0 then []
    else
      (match chunks[0]
       case LineChunk(_) => WriteChunk(chunks[0], discarded)
       case ConflictChunk(c) => WriteConflict(InjectConflict(c, discarded, items, ip)))
      + WriteInjected(chunks[1..], discarded, items, ip)
  }

  lemma {:induction false} UntilInsertedNoStop(chunks: seq<Chunk<Line>>, discarded: set<LineNumber>, items: string, ip: InsertPoint, numbers: set<LineNumber>)
    requires NamesDiscarded(ip, numbers, discarded)
    requires forall j :: 0 <= j < |chunks| ==> !Stops(chunks[j], discarded)
    ensures WriteUntilInserted(chunks, discarded, items, ip) == WriteInjected(chunks, discarded, items, ip)
    decreases |chunks|
  {
    if |chunks| > 0 {
      assert !Stops(chunks[0], discarded);
      assert forall j :: 0 <= j < |chunks[1..]| ==> chunks[1..][j] == chunks[j + 1];
      UntilInsertedNoStop(chunks[1..], discarded, items, ip, numbers);
      match chunks[0]
      case LineChunk(l) =>
        UntilInsertedLine(chunks, discarded, items, ip);
      case ConflictChunk(c) =>
        UntilInsertedConflict(chunks, discarded, items, ip);
    }
  }

  /**
   When no chunk ends the search, the first loop never stops early: every
   conflict is written with the imports in place of whichever insert-point
   line it holds, and every plain line filtered.
   */
  lemma WriteNoStop(chunks: seq<Chunk<Line>>, discarded: set<LineNumber>, items: string)
    requires forall j :: 0 <= j < |chunks| ==> !Stops(chunks[j], discarded)
    ensures WriteCorrectedFile(chunks, discarded, items) == WriteInjected(chunks, discarded, items, FindInsertPoint(chunks, discarded))
  {
    FindInsertPointSound(chunks, discarded);
    UntilInsertedNoStop(chunks, discarded, items, FindInsertPoint(chunks, discarded), ChunkNumbers(chunks));
  }

  /** A numbered chunk's lines, left then right, have increasing numbers from `n` up to the next chunk's first number. */
  lemma ChunkLinesNumbered(c: Chunk<string>, n: LineNumber)
    ensures Increasing(ChunkLines(ChunkWithLineNumber(c, n).0))
    ensures forall i :: 0 <= i < |ChunkLines(ChunkWithLineNumber(c, n).0)| ==>
      n <= ChunkLines(ChunkWithLineNumber(c, n).0)[i].lineNumber < ChunkWithLineNumber(c, n).1
  {
    if c.ConflictChunk? {
      var L := |c.conflict.left.lines|;
      var R := |c.conflict.right.lines|;
      ConflictNumberingUnfold(c.conflict, n);
      var cw := ConflictWithLineNumber(c.conflict, n).0;
      assert ChunkWithLineNumber(c, n).0 == ConflictChunk(cw);
      var left := cw.left.lines;
      var right := cw.right.lines;
      assert forall i :: 0 <= i < |left| ==> left[i].lineNumber == n + 1 + i;
      assert forall i :: 0 <= i < |right| ==> right[i].lineNumber == n + L + 2 + i;
      IncreasingAppend(left, right, n + L + 2);
    }
  }

  /** Numbered from `n`, all lines of the file, on both sides, have strictly increasing numbers from `n` on. */
  lemma {:induction false} FromChunksAllIncreasing(chunks: seq<Chunk<string>>, n: LineNumber)
    ensures Increasing(AllLines(FromChunks(chunks, n)))
    ensures forall i :: 0 <= i < |AllLines(FromChunks(chunks, n))| ==> n <= AllLines(FromChunks(chunks, n))[i].lineNumber
    decreases |chunks|
  {
    if |chunks| > 0 {
      var c := ChunkWithLineNumber(chunks[0], n).0;
      var n' := ChunkWithLineNumber(chunks[0], n).1;
      var numbered := FromChunks(chunks, n);
      assert numbered[0] == c && numbered[1..] == FromChunks(chunks[1..], n');
      var head := ChunkLines(c);
      var rest := AllLines(FromChunks(chunks[1..], n'));
      assert AllLines(numbered) == head + rest;
      ChunkLinesNumbered(chunks[0], n);
      FromChunksAllIncreasing(chunks[1..], n');
      IncreasingAppend(head, rest, n');
    }
  }

  /** A parsed file numbers each of its lines, on both sides of every conflict, differently. */
  lemma ParsedNumbersDistinct(input: string)
    requires ParseFile(input).Some?
    ensures DistinctNumbers(AllLines(ParseFile(input).value.chunks))
  {
    var chunks := ParseChunks(input).value;
    FromChunksAllIncreasing(chunks, 1);
  }

  /**
   A ref name that a marker line carries through unchanged: on one line,
   not starting with a space or tab, and not ending in whitespace.
   */
  predicate MarkerName(name: string) {
    && (forall i :: 0 <= i < |name| ==> name[i] != '\n')
    && (|name| == 0 || (name[0] != ' ' && name[0] != '\t' && !IsWhitespace(name[|name| - 1])))
  }

  /** A complete line of a conflict half: one physical line, ending in a newline. */
  predicate HalfLine(l: string) {
    WellFormedLine(l) && EndsWithNewline(l)
  }

  /** The line would be taken for the terminator of the half it is in. */
  predicate EndsHalf(term: Terminator, l: string) {
    match term
    case SeparatorTerm => l == Separator
    case FooterTerm => FooterArrows <= l
    case EofTerm => false
  }

  lemma {:induction false} ConcatAppend(a: seq<string>, b: seq<string>)
    ensures Concat(a + b) == Concat(a) + Concat(b)
    decreases |a|
  {
    if |a| == 0 {
      assert a + b == b;
    } else {
      assert (a + b)[1..] == a[1..] + b;
      ConcatAppend(a[1..], b);
    }
  }

  lemma PrefixAt(p: string, s: string, i: int)
    ensures p <= s && 0 <= i < |p| ==> p[i] == s[i]
  {
  }

  /** A prefix with no newline before its last character that starts a text starting with a whole line starts that line. */
  lemma PrefixWithinLine(p: string, l: string, x: string)
    requires EndsWithNewline(l)
    requires forall i :: 0 <= i < |p| - 1 ==> p[i] != '\n'
    requires p <= l + x
    ensures p <= l
  {
    if |p| > |l| {
      PrefixAt(p, l + x, |l| - 1);
      assert false;
    }
    assert p == (l + x)[..|p|] == l[..|p|];
  }

  /** A half line that is not its half's terminator does not end the half, whatever follows it. */
  lemma NotTerminated(term: Terminator, l: string, x: string)
    requires HalfLine(l) && !EndsHalf(term, l)
    ensures !Terminate(term, l + x).POk?
  {
    match term
    case SeparatorTerm =>
      if Separator <= l + x {
        assert Separator == ['=', '=', '=', '=', '=', '=', '=', '\n'];
        PrefixWithinLine(Separator, l, x);
      }
    case FooterTerm =>
      if FooterArrows <= l + x {
        assert FooterArrows == ['>', '>', '>', '>', '>', '>', '>'];
        PrefixWithinLine(FooterArrows, l, x);
      }
    case EofTerm =>
  }

  /** Half lines followed by the half's terminator parse back to exactly those lines. */
  lemma {:induction false} ParseHalfOfLines(ls: seq<string>, t: string, term: Terminator)
    requires Terminate(term, t).POk?
    requires forall i :: 0 <= i < |ls| ==> HalfLine(ls[i]) && !EndsHalf(term, ls[i])
    ensures ParseHalf(Concat(ls) + t, term) == POk(Terminate(term, t).tail, (ls, Terminate(term, t).value))
    decreases |ls|
  {
    var done := Terminate(term, t);
    if |ls| == 0 {
      assert Concat(ls) + t == t;
      HalfAtTerminator(t, term, ls);
    } else {
      var rest := ls[1..];
      forall i | 0 <= i < |rest| ensures HalfLine(rest[i]) && !EndsHalf(term, rest[i]) {
        assert rest[i] == ls[i + 1];
      }
      ParseHalfOfLines(rest, t, term);
      HalfLinesThen(ls, rest, t, term, done.tail, done.value);
    }
  }

  /** Parsing the joined lines: the first line, then the rest as the shorter list parses. */
  lemma HalfLinesThen(ls: seq<string>, rest: seq<string>, t: string, term: Terminator, after: string, name: string)
    requires |ls| > 0 && rest == ls[1..]
    requires HalfLine(ls[0]) && !EndsHalf(term, ls[0])
    requires ParseHalf(Concat(rest) + t, term) == POk(after, (rest, name))
    ensures ParseHalf(Concat(ls) + t, term) == POk(after, (ls, name))
  {
    ConcatFirst(ls, t);
    HalfLineThen(ls[0], Concat(rest) + t, term, after, rest, name, ls);
  }

  /** A text that starts with the half's terminator parses to an empty half. */
  lemma HalfAtTerminator(t: string, term: Terminator, none: seq<string>)
    requires Terminate(term, t).POk? && none == []
    ensures ParseHalf(t, term) == POk(Terminate(term, t).tail, (none, Terminate(term, t).value))
  {
  }

  /** A half line that does not end its half is the first of the lines the rest of the half parses to. */
  lemma HalfLineThen(l: string, tail: string, term: Terminator, after: string, lines: seq<string>, name: string, all: seq<string>)
    requires HalfLine(l) && !EndsHalf(term, l)
    requires ParseHalf(tail, term) == POk(after, (lines, name))
    requires all == [l] + lines
    ensures ParseHalf(l + tail, term) == POk(after, (all, name))
  {
    NotTerminated(term, l, tail);
    AnyLineOfPrefix(l, tail);
    ParseHalfStep(l + tail, term);
  }

  /** Joined lines and a text: the first line, then the rest joined with the text. */
  lemma ConcatFirst(ls: seq<string>, t: string)
    requires |ls| > 0
    ensures Concat(ls) + t == ls[0] + (Concat(ls[1..]) + t)
  {
    assert Concat(ls) == ls[0] + Concat(ls[1..]);
    JoinThree(ls[0], Concat(ls[1..]), t);
  }

  /** Regrouping three joined strings to the right. */
  lemma JoinThree(a: string, b: string, c: string)
    ensures (a + b) + c == a + (b + c)
  {
  }

  /** One step of `parse_lines_terminated` when the terminator does not match: a line, then the rest. */
  lemma ParseHalfStep(input: string, term: Terminator)
    requires input != [] && !Terminate(term, input).POk?
    ensures var rest := ParseHalf(AnyLine(input).1, term);
      ParseHalf(input, term) == if rest.POk? then POk(rest.tail, ([AnyLine(input).0] + rest.value.0, rest.value.1)) else PError
  {
  }

  /** A marker line with a marker name gives back that name, and the text after the line. */
  lemma MarkerLine(arrows: string, name: string, tail: string)
    requires MarkerName(name)
    ensures ConflictPart(arrows, arrows + " " + name + "\n" + tail) == POk(tail, name)
  {
    var line := name + "\n";
    var body := " " + (line + tail);
    JoinMarker(arrows, " ", name, "\n", tail);
    ConflictPartOf(arrows, body, arrows + body);
    SpaceThenLine(line + tail, body);
    NamedLine(name, line, tail);
  }

  /** Regrouping the parts of a marker line to the right. */
  lemma JoinMarker(a: string, sp: string, name: string, nl: string, tail: string)
    ensures a + sp + name + nl + tail == a + (sp + ((name + nl) + tail))
  {
  }

  /** After its chevrons, the marker line is cut at the first non-blank character. */
  lemma ConflictPartOf(arrows: string, body: string, input: string)
    requires input == arrows + body
    ensures ConflictPart(arrows, input) == POk(AnyLine(body[Space0(body)..]).1, Common.TrimEnd(AnyLine(body[Space0(body)..]).0))
  {
    assert input[..|arrows|] == arrows && input[|arrows|..] == body;
  }

  /** One space before text that starts with neither a space nor a tab is skipped exactly. */
  lemma SpaceThenLine(s: string, body: string)
    requires body == " " + s
    requires |s| > 0 && s[0] != ' ' && s[0] != '\t'
    ensures Space0(body) == 1 && body[1..] == s
  {
    assert body[1..] == s;
    assert body[1..][0] == s[0];
  }

  /** A marker name and its newline make one line, whose name is the marker name. */
  lemma NamedLine(name: string, line: string, tail: string)
    requires MarkerName(name) && line == name + "\n"
    ensures |line + tail| > 0 && (line + tail)[0] != ' ' && (line + tail)[0] != '\t'
    ensures AnyLine(line + tail) == (line, tail)
    ensures Common.TrimEnd(line) == name
  {
    assert (line + tail)[0] == line[0];
    assert forall i :: 0 <= i < |line| - 1 ==> line[i] == name[i];
    AnyLineOfPrefix(line, tail);
    assert line[..|line| - 1] == name;
  }

  /** The header line of a written conflict gives back the left name. */
  lemma HeaderLine(name: string, tail: string)
    requires MarkerName(name)
    ensures ConflictPart(HeaderArrows, "<<<<<<< " + name + "\n" + tail) == POk(tail, name)
  {
    assert "<<<<<<< " + name + "\n" + tail == HeaderArrows + " " + name + "\n" + tail;
    MarkerLine(HeaderArrows, name, tail);
  }

  /** The footer line of a written conflict gives back the right name. */
  lemma FooterLine(name: string, tail: string)
    requires MarkerName(name)
    ensures Terminate(FooterTerm, ">>>>>>> " + name + "\n" + tail) == POk(tail, name)
  {
    assert ">>>>>>> " + name + "\n" + tail == FooterArrows + " " + name + "\n" + tail;
    MarkerLine(FooterArrows, name, tail);
  }

  /** The separator line ends the left half, leaving the text after it. */
  lemma SeparatorLine(tail: string)
    ensures Terminate(SeparatorTerm, Separator + tail) == POk(tail, "")
  {
    assert (Separator + tail)[..|Separator|] == Separator;
    assert (Separator + tail)[|Separator|..] == tail;
  }

  /** The text of a written conflict whose halves differ, line by line. */
  lemma WrittenConflictText(c: Conflict<string>, rest: string)
    requires c.left.lines != c.right.lines
    ensures Concat(WriteConflict(c)) + rest ==
      ("<<<<<<< " + c.left.name + "\n") + (Concat(c.left.lines) + (Separator + (Concat(c.right.lines) + ((">>>>>>> " + c.right.name + "\n") + rest))))
  {
    var header := "<<<<<<< " + c.left.name + "\n";
    var footer := ">>>>>>> " + c.right.name + "\n";
    ConcatOfFive(header, c.left.lines, Separator, c.right.lines, footer, rest);
  }

  /** A line, some lines, a line, some lines and a line, joined and followed by a text. */
  lemma ConcatOfFive(h: string, l: seq<string>, s: string, r: seq<string>, f: string, rest: string)
    ensures Concat([h] + l + [s] + r + [f]) + rest == h + (Concat(l) + (s + (Concat(r) + (f + rest))))
  {
    ConcatAppend([h] + l + [s] + r, [f]);
    ConcatAppend([h] + l + [s], r);
    ConcatAppend([h] + l, [s]);
    ConcatAppend([h], l);
    assert Concat([h]) == h && Concat([s]) == s && Concat([f]) == f;
    JoinFive(h, Concat(l), s, Concat(r), f, rest);
  }

  /** Regrouping six joined strings to the right. */
  lemma JoinFive(a: string, b: string, c: string, d: string, e: string, g: string)
    ensures ((((a + b) + c) + d) + e) + g == a + (b + (c + (d + (e + g))))
  {
  }

  /**
   A conflict whose halves differ is written so that the conflict parser
   reads it back as the same conflict, names included, when its names are
   marker names, all its lines are complete lines, and no left line is the
   separator and no right line starts a footer.
   */
  lemma WriteConflictRoundTrip(c: Conflict<string>, rest: string)
    requires c.left.lines != c.right.lines
    requires MarkerName(c.left.name) && MarkerName(c.right.name)
    requires forall i :: 0 <= i < |c.left.lines| ==> HalfLine(c.left.lines[i]) && c.left.lines[i] != Separator
    requires forall i :: 0 <= i < |c.right.lines| ==> HalfLine(c.right.lines[i]) && !(FooterArrows <= c.right.lines[i])
    ensures ParseConflict(Concat(WriteConflict(c)) + rest) == POk(rest, c)
  {
    var footer := ">>>>>>> " + c.right.name + "\n";
    var afterSep := Concat(c.right.lines) + (footer + rest);
    var afterHeader := Concat(c.left.lines) + (Separator + afterSep);
    WrittenConflictText(c, rest);
    HeaderLine(c.left.name, afterHeader);
    SeparatorLine(afterSep);
    ParseHalfOfLines(c.left.lines, Separator + afterSep, SeparatorTerm);
    FooterLine(c.right.name, rest);
    ParseHalfOfLines(c.right.lines, footer + rest, FooterTerm);
  }
}
