/**
 The primitive parsers: Rust identifiers (optionally raw, `r#name`) and the
 whitespace that starts a line.

 The Unicode XID_Start and XID_Continue tables are not reproduced; they are
 a parameter, `XidTables`, constrained only by the facts the parser relies on.
 */
module Parsers {
  import opened Common

  /** The two Unicode character classes identifiers are made of. */
  datatype XidTables = XidTables(isStart: char -> bool, isContinue: char -> bool)

  /**
   The facts about the real tables the parser relies on: XID_Continue is a
   superset of XID_Start, and `_` continues an identifier but cannot start one.
   */
  predicate ValidTables(t: XidTables) {
    && (forall c: char :: t.isStart(c) ==> t.isContinue(c))
    && t.isContinue('_') && !t.isStart('_')
  }

  /** A parse that consumed `value` and left `tail`, or a recoverable error. */
  datatype Parsed = Parsed(tail: string, value: string) | NoMatch

  /** The length of the longest prefix of `s` whose characters all satisfy `p` (`find(!p)`, or the length). */
  function SpanOf(p: char -> bool, s: string): (r: nat)
    ensures r <= |s|
    ensures forall i :: 0 <= i < r ==> p(s[i])
    ensures r < |s| ==> !p(s[r])
  {
    if |s| == 0 || !p(s[0]) then 0 else 1 + SpanOf(p, s[1..])
  }

  /** A normal identifier: an XID_Start character, or `_` and one more character, then XID_Continue characters. */
  predicate IsNormalIdentifier(t: XidTables, s: string) {
    && |s| > 0
    && (forall i :: 0 <= i < |s| ==> t.isContinue(s[i]))
    && (t.isStart(s[0]) || (s[0] == '_' && |s| > 1))
  }

  /**
   `parse_normal_identifier`: the longest XID_Continue prefix is the
   identifier, provided it starts with an XID_Start character or is `_`
   followed by at least one more character.
   */
  function ParseNormalIdentifier(t: XidTables, input: string): (r: Parsed)
    ensures r.Parsed? ==> r.value + r.tail == input
    ensures r.Parsed? ==> IsNormalIdentifier(t, r.value) && (|r.tail| == 0 || !t.isContinue(r.tail[0]))
    ensures r.NoMatch? ==> !IsNormalIdentifier(t, input[..SpanOf(t.isContinue, input)])
  {
    var split := SpanOf(t.isContinue, input);
    var ident := input[..split];
    var tail := input[split..];
    assert ident + tail == input;
    if |ident| == 0 then NoMatch
    else if t.isStart(ident[0]) then Parsed(tail, ident)
    else if ident[0] == '_' then
      if |ident[1..]| == 0 then NoMatch else Parsed(tail, ident)
    else NoMatch
  }

  /** An identifier followed by text that cannot continue it parses back to exactly that identifier. */
  lemma NormalIdentifierRoundTrip(t: XidTables, ident: string, tail: string)
    requires IsNormalIdentifier(t, ident)
    requires |tail| == 0 || !t.isContinue(tail[0])
    ensures ParseNormalIdentifier(t, ident + tail) == Parsed(tail, ident)
  {
    SpanOfPrefix(t.isContinue, ident, tail);
    assert (ident + tail)[..|ident|] == ident && (ident + tail)[|ident|..] == tail;
  }

  /** The span over a run of matching characters stops exactly where a non-matching character follows. */
  lemma {:induction false} SpanOfPrefix(p: char -> bool, run: string, tail: string)
    requires forall i :: 0 <= i < |run| ==> p(run[i])
    requires |tail| == 0 || !p(tail[0])
    ensures SpanOf(p, run + tail) == |run|
    decreases |run|
  {
    if |run| == 0 {
      assert run + tail == tail;
    } else {
      assert (run + tail)[1..] == run[1..] + tail;
      SpanOfPrefix(p, run[1..], tail);
    }
  }

  /**
   The identifier is found exactly when the input starts with an XID_Start
   character, or with `_` followed by an XID_Continue character.
   */
  lemma NormalIdentifierSucceeds(t: XidTables, input: string)
    requires ValidTables(t)
    ensures ParseNormalIdentifier(t, input).Parsed? <==>
      |input| > 0 && (t.isStart(input[0]) || (input[0] == '_' && |input| > 1 && t.isContinue(input[1])))
  {
    var split := SpanOf(t.isContinue, input);
    if |input| > 0 && t.isStart(input[0]) {
      assert split > 0;
    }
    if |input| > 1 && input[0] == '_' && t.isContinue(input[1]) {
      assert SpanOf(t.isContinue, input) == 1 + SpanOf(t.isContinue, input[1..]);
      assert input[1..][0] == input[1];
      assert split > 1;
    }
  }

  /** A lone `_` is not an identifier, whatever follows it. */
  lemma LoneUnderscoreFails(t: XidTables, tail: string)
    requires ValidTables(t)
    requires |tail| == 0 || !t.isContinue(tail[0])
    ensures ParseNormalIdentifier(t, "_" + tail).NoMatch?
  {
    NormalIdentifierSucceeds(t, "_" + tail);
    assert ("_" + tail)[0] == '_';
    if |tail| > 0 {
      assert ("_" + tail)[1] == tail[0];
    }
  }

  const RawPrefix: string := "r#"

  /**
   `parse_identifier`: a normal identifier, optionally preceded by `r#`; the
   result includes the prefix. Once `r#` is seen, a missing identifier after
   it is an error (there is no retry without the prefix).
   */
  function ParseIdentifier(t: XidTables, input: string): (r: Parsed)
    ensures RawPrefix <= input ==>
      (r.Parsed? <==> ParseNormalIdentifier(t, input[2..]).Parsed?)
    ensures RawPrefix <= input && r.Parsed? ==>
      r.value == RawPrefix + ParseNormalIdentifier(t, input[2..]).value && r.tail == ParseNormalIdentifier(t, input[2..]).tail
    ensures !(RawPrefix <= input) ==> r == ParseNormalIdentifier(t, input)
    ensures r.Parsed? ==> r.value + r.tail == input
  {
    if RawPrefix <= input then
      var rest := input[2..];
      match ParseNormalIdentifier(t, rest)
      case Parsed(tail, ident) =>
        assert input == RawPrefix + ident + tail;
        Parsed(tail, input[..|input| - |tail|])
      case NoMatch => NoMatch
    else
      ParseNormalIdentifier(t, input)
  }

  /** A raw identifier parses back to itself, prefix included. */
  lemma RawIdentifierRoundTrip(t: XidTables, ident: string, tail: string)
    requires IsNormalIdentifier(t, ident)
    requires |tail| == 0 || !t.isContinue(tail[0])
    ensures ParseIdentifier(t, RawPrefix + ident + tail) == Parsed(tail, RawPrefix + ident)
  {
    var input := RawPrefix + ident + tail;
    assert RawPrefix <= input;
    assert input[2..] == ident + tail;
    NormalIdentifierRoundTrip(t, ident, tail);
  }

  /**
   `snip_whitespace`: the leading whitespace of a line and what follows it.
   */
  function SnipWhitespace(input: string): (r: (string, string))
    ensures r.0 + r.1 == input
    ensures IsBlank(r.0)
    ensures |r.1| == 0 || !IsWhitespace(r.1[0])
  {
    var split := SpanOf(IsWhitespace, input);
    assert input[..split] + input[split..] == input;
    (input[..split], input[split..])
  }

  /** The split is the only one with those properties: whitespace, then text not starting with it. */
  lemma SnipWhitespaceUnique(ws: string, rest: string)
    requires IsBlank(ws)
    requires |rest| == 0 || !IsWhitespace(rest[0])
    ensures SnipWhitespace(ws + rest) == (ws, rest)
  {
    SpanOfPrefix(IsWhitespace, ws, rest);
    assert (ws + rest)[..|ws|] == ws && (ws + rest)[|ws|..] == rest;
  }

  /** What is left after snipping has no leading whitespace to snip. */
  lemma SnipWhitespaceIdempotent(input: string)
    ensures SnipWhitespace(SnipWhitespace(input).1) == ("", SnipWhitespace(input).1)
  {
    SnipWhitespaceUnique("", SnipWhitespace(input).1);
    assert "" + SnipWhitespace(input).1 == SnipWhitespace(input).1;
  }
}
