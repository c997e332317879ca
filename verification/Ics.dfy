/** apps/api/src/comms/ics.util.ts: escaping text and folding lines for iCalendar files. */
module Ics {
  import opened Common

  // ---------- escapeIcsText ----------

  /** value.replace with a pattern that is one character. */
  function ReplaceAll(s: string, c: char, sub: string): string {
    if s == "" then "" else (if s[0] == c then sub else [s[0]]) + ReplaceAll(s[1..], c, sub)
  }

  predicate StartsCrlf(s: string) {
    |s| >= 2 && s[0] == '\r' && s[1] == '\n'
  }

  /** value.replace with the pattern of a line feed and the carriage return before it, if any. */
  function ReplaceNewlines(s: string, sub: string): string {
    if s == "" then ""
    else if StartsCrlf(s) then sub + ReplaceNewlines(s[2..], sub)
    else (if s[0] == '\n' then sub else [s[0]]) + ReplaceNewlines(s[1..], sub)
  }

  function EscapeIcsText(value: string): string {
    ReplaceNewlines(ReplaceAll(ReplaceAll(ReplaceAll(value, '\\', "\\\\"), ';', "\\;"), ',', "\\,"), "\\n")
  }

  /** Each character escaped on its own. */
  function EscapeOnce(s: string): string {
    if s == "" then ""
    else if StartsCrlf(s) then "\\n" + EscapeOnce(s[2..])
    else
      (match s[0]
       case '\\' => "\\\\"
       case ';' => "\\;"
       case ',' => "\\,"
       case '\n' => "\\n"
       case _ => [s[0]]) + EscapeOnce(s[1..])
  }

  predicate NoBreaks(s: string) {
    forall i :: 0 <= i < |s| ==> s[i] != '\r' && s[i] != '\n'
  }

  lemma {:induction false} ReplaceAppended(a: string, b: string, c: char, sub: string)
    ensures ReplaceAll(a + b, c, sub) == ReplaceAll(a, c, sub) + ReplaceAll(b, c, sub)
  {
    if a == "" {
      assert a + b == b;
    } else {
      assert (a + b)[1..] == a[1..] + b;
      ReplaceAppended(a[1..], b, c, sub);
    }
  }

  /** A text without line breaks in front stays in front. */
  lemma {:induction false} NewlinesAfter(a: string, b: string, sub: string)
    requires NoBreaks(a)
    ensures ReplaceNewlines(a + b, sub) == a + ReplaceNewlines(b, sub)
  {
    if a == "" {
      assert a + b == b;
    } else {
      assert (a + b)[0] == a[0] && (a + b)[1..] == a[1..] + b;
      NewlinesAfter(a[1..], b, sub);
    }
  }

  /** The three replacements of single characters. */
  function ReplaceThree(s: string): string {
    ReplaceAll(ReplaceAll(ReplaceAll(s, '\\', "\\\\"), ';', "\\;"), ',', "\\,")
  }

  function EscapeChar(c: char): string {
    match c
    case '\\' => "\\\\"
    case ';' => "\\;"
    case ',' => "\\,"
    case _ => [c]
  }

  lemma ReplaceOne(c: char, d: char, sub: string)
    ensures ReplaceAll([c], d, sub) == if c == d then sub else [c]
  {
  }

  lemma ReplaceTwo(c: char, e: char, d: char, sub: string)
    requires c != d && e != d
    ensures ReplaceAll([c, e], d, sub) == [c, e]
  {
    assert [c, e] == [c] + [e];
    ReplaceAppended([c], [e], d, sub);
    ReplaceOne(c, d, sub);
    ReplaceOne(e, d, sub);
  }

  lemma ThreeOfOne(c: char)
    ensures ReplaceThree([c]) == EscapeChar(c)
  {
    ReplaceOne(c, '\\', "\\\\");
    if c == '\\' {
      ReplaceTwo('\\', '\\', ';', "\\;");
      ReplaceTwo('\\', '\\', ',', "\\,");
    } else {
      ReplaceOne(c, ';', "\\;");
      if c == ';' {
        ReplaceTwo('\\', ';', ',', "\\,");
      } else {
        ReplaceOne(c, ',', "\\,");
      }
    }
  }

  lemma ThreeAppended(a: string, b: string)
    ensures ReplaceThree(a + b) == ReplaceThree(a) + ReplaceThree(b)
  {
    ReplaceAppended(a, b, '\\', "\\\\");
    var a1, b1 := ReplaceAll(a, '\\', "\\\\"), ReplaceAll(b, '\\', "\\\\");
    ReplaceAppended(a1, b1, ';', "\\;");
    ReplaceAppended(ReplaceAll(a1, ';', "\\;"), ReplaceAll(b1, ';', "\\;"), ',', "\\,");
  }

  lemma ThreeStep(s: string)
    requires s != ""
    ensures ReplaceThree(s) == EscapeChar(s[0]) + ReplaceThree(s[1..])
  {
    assert s == [s[0]] + s[1..];
    ThreeAppended([s[0]], s[1..]);
    ThreeOfOne(s[0]);
  }

  /** The four replacements one after the other do what one pass over the text does. */
  lemma {:induction false} EscapeIsOnePass(s: string)
    ensures EscapeIcsText(s) == EscapeOnce(s)
  {
    assert EscapeIcsText(s) == ReplaceNewlines(ReplaceThree(s), "\\n");
    if s != "" {
      var rest := ReplaceThree(s[1..]);
      ThreeStep(s);
      EscapeIsOnePass(s[1..]);
      if StartsCrlf(s) {
        ThreeStep(s[1..]);
        EscapeIsOnePass(s[2..]);
        assert ReplaceThree(s) == "\r\n" + ReplaceThree(s[2..]);
        assert ReplaceThree(s)[2..] == ReplaceThree(s[2..]);
      } else if s[0] == '\n' {
        assert (['\n'] + rest)[1..] == rest;
      } else if s[0] == '\r' {
        assert (['\r'] + rest)[1..] == rest;
        if rest != "" {
          assert s[1..] != "";
          ThreeStep(s[1..]);
          assert rest[0] != '\n';
        }
      } else {
        NewlinesAfter(EscapeChar(s[0]), rest, "\\n");
      }
    }
  }

  // ---------- unescaping, section 3.3.11 of RFC 5545 ----------

  function Unescape(s: string): string {
    if s == "" then ""
    else if |s| >= 2 && s[0] == '\\' && s[1] in "\\;,nN" then
      [if s[1] == 'n' || s[1] == 'N' then '\n' else s[1]] + Unescape(s[2..])
    else [s[0]] + Unescape(s[1..])
  }

  /** Unescaping gives the text back, with CRLF turned into LF. */
  lemma {:induction false} UnescapeEscaped(s: string)
    ensures Unescape(EscapeIcsText(s)) == ReplaceNewlines(s, "\n")
  {
    EscapeIsOnePass(s);
    UnescapeOnePass(s);
  }

  lemma UnescapePair(c: char, t: string)
    requires c in "\\;,n"
    ensures Unescape(['\\', c] + t) == [if c == 'n' then '\n' else c] + Unescape(t)
  {
  }

  lemma UnescapePlain(c: char, t: string)
    requires c != '\\'
    ensures Unescape([c] + t) == [c] + Unescape(t)
  {
  }

  lemma {:induction false} UnescapeOnePass(s: string)
    ensures Unescape(EscapeOnce(s)) == ReplaceNewlines(s, "\n")
  {
    if s != "" {
      var rest := if StartsCrlf(s) then s[2..] else s[1..];
      UnescapeOnePass(rest);
      if StartsCrlf(s) || s[0] == '\n' {
        UnescapePair('n', EscapeOnce(rest));
      } else if s[0] == '\\' || s[0] == ';' || s[0] == ',' {
        UnescapePair(s[0], EscapeOnce(rest));
      } else {
        UnescapePlain(s[0], EscapeOnce(rest));
      }
    }
  }

  /** An escaped text has no line feed, and a carriage return only where the text has a lone one. */
  predicate LoneReturn(s: string) {
    s != "" && if StartsCrlf(s) then LoneReturn(s[2..]) else s[0] == '\r' || LoneReturn(s[1..])
  }

  /** A comma or a semicolon stands behind a backslash only. */
  ghost predicate Guarded(s: string) {
    forall i :: 0 <= i < |s| && (s[i] == ',' || s[i] == ';') ==> i > 0 && s[i - 1] == '\\'
  }

  lemma {:induction false} OnePassGuards(s: string)
    ensures Guarded(EscapeOnce(s))
  {
    if s != "" {
      OnePassGuards(if StartsCrlf(s) then s[2..] else s[1..]);
    }
  }

  lemma EscapedIsGuarded(s: string)
    ensures Guarded(EscapeIcsText(s))
  {
    EscapeIsOnePass(s);
    OnePassGuards(s);
  }

  lemma {:induction false} EscapedBreaks(s: string)
    ensures '\n' !in EscapeIcsText(s)
    ensures '\r' in EscapeIcsText(s) <==> LoneReturn(s)
  {
    EscapeIsOnePass(s);
    if s != "" {
      var rest := if StartsCrlf(s) then s[2..] else s[1..];
      EscapedBreaks(rest);
      EscapeIsOnePass(rest);
    }
  }

  // ---------- foldLine and foldIcsLines ----------

  const ICS_LINE_LIMIT := 75

  const CRLF := "\r\n"

  function Chunk(s: string): string {
    if |s| <= ICS_LINE_LIMIT then s else s[..ICS_LINE_LIMIT]
  }

  /** What comes after the first chunk: each further one on a line of its own, behind a space. */
  function Continuations(s: string): string {
    if s == "" then "" else CRLF + " " + Chunk(s) + Continuations(s[|Chunk(s)|..])
  }

  function Folded(line: string): string {
    Chunk(line) + Continuations(line[|Chunk(line)|..])
  }

  method FoldLine(line: string) returns (result: string)
    ensures result == Folded(line)
  {
    if |line| <= ICS_LINE_LIMIT {
      assert line[|line|..] == "";
      return line;
    }
    result := line[..ICS_LINE_LIMIT];
    var index := ICS_LINE_LIMIT;
    ghost var rest := line[index..];
    while index < |line|
      invariant rest == if index < |line| then line[index..] else ""
      invariant Folded(line) == result + Continuations(rest)
      decreases |line| - index
    {
      ghost var chunk := Chunk(rest);
      var piece := line[index..if index + ICS_LINE_LIMIT < |line| then index + ICS_LINE_LIMIT else |line|];
      assert piece == chunk;
      Regroup(result, CRLF + " " + chunk, Continuations(rest[|chunk|..]));
      rest := rest[|chunk|..];
      result := result + (CRLF + " " + piece);
      index := index + ICS_LINE_LIMIT;
    }
  }

  /** The folded lines after the first, each behind a line break. */
  function Following(lines: seq<string>): string {
    if lines == [] then "" else CRLF + (Folded(lines[0]) + Following(lines[1..]))
  }

  function FoldIcsLines(lines: seq<string>): string {
    if lines == [] then "" else Folded(lines[0]) + Following(lines[1..])
  }

  // ---------- unfolding, section 3.1 of RFC 5545, and splitting into lines ----------

  predicate StartsBlank(s: string) {
    s != "" && (s[0] == ' ' || s[0] == '\t')
  }

  /** A carriage return alone breaks no line. */
  predicate NoFeed(s: string) {
    '\n' !in s
  }

  predicate StartsFeed(s: string) {
    s != "" && s[0] == '\n'
  }

  function Unfold(s: string): string {
    if s == "" then ""
    else if StartsCrlf(s) && StartsBlank(s[2..]) then Unfold(s[3..])
    else [s[0]] + Unfold(s[1..])
  }

  function Split(s: string): (lines: seq<string>)
    ensures |lines| >= 1
  {
    if s == "" then [""]
    else if StartsCrlf(s) then [""] + Split(s[2..])
    else
      var rest := Split(s[1..]);
      [[s[0]] + rest[0]] + rest[1..]
  }

  lemma {:induction false} UnfoldText(a: string, t: string)
    requires NoFeed(a) && !StartsFeed(t)
    ensures Unfold(a + t) == a + Unfold(t)
  {
    if a == "" {
      assert a + t == t;
    } else {
      assert (a + t)[0] == a[0] && (a + t)[1..] == a[1..] + t;
      FeedlessStart(a, t);
      UnfoldText(a[1..], t);
    }
  }

  lemma FeedlessStart(a: string, t: string)
    requires NoFeed(a) && !StartsFeed(t) && a != ""
    ensures !StartsCrlf(a + t) && NoFeed(a[1..])
  {
    if |a| > 1 {
      assert (a + t)[1] == a[1];
    } else if t != "" {
      assert (a + t)[1] == t[0];
    }
  }

  lemma UnfoldBreak(t: string)
    ensures Unfold(CRLF + t) == if StartsBlank(t) then Unfold(t[1..]) else CRLF + Unfold(t)
  {
    var s := CRLF + t;
    assert s[2..] == t;
    if StartsBlank(t) {
      assert s[3..] == t[1..];
    } else {
      UnfoldKept(s);
      assert s[1..] == "\n" + t;
      UnfoldKept(s[1..]);
      assert s[1..][1..] == t;
      assert CRLF == ['\r'] + ['\n'];
      Regroup(['\r'], ['\n'], Unfold(t));
    }
  }

  lemma UnfoldKept(s: string)
    requires s != "" && !(StartsCrlf(s) && StartsBlank(s[2..]))
    ensures Unfold(s) == [s[0]] + Unfold(s[1..])
  {
  }

  lemma {:induction false} UnfoldContinuations(s: string, t: string)
    requires NoFeed(s) && !StartsFeed(t)
    ensures Unfold(Continuations(s) + t) == s + Unfold(t)
  {
    if s == "" {
      assert "" + t == t;
    } else {
      var c := Chunk(s);
      var rest := s[|c|..];
      UnfoldContinuations(rest, t);
      ContinuationsStart(rest, t);
      UnfoldPiece(c, Continuations(rest), t);
      assert s == c + rest;
      Regroup(c, rest, Unfold(t));
    }
  }

  lemma ContinuationsStart(s: string, t: string)
    requires !StartsFeed(t)
    ensures !StartsFeed(Continuations(s) + t)
  {
    if s != "" {
      assert Continuations(s)[0] == '\r';
    }
  }

  /** A line break and a space disappear; the piece behind them stays. */
  lemma UnfoldPiece(c: string, more: string, t: string)
    requires NoFeed(c) && !StartsFeed(more + t)
    ensures Unfold(CRLF + " " + c + more + t) == c + Unfold(more + t)
  {
    var after := " " + (c + (more + t));
    assert CRLF + " " + c + more + t == CRLF + after;
    UnfoldBreak(after);
    assert after[1..] == c + (more + t);
    UnfoldText(c, more + t);
  }

  lemma UnfoldFolded(line: string, t: string)
    requires NoFeed(line) && !StartsFeed(t)
    ensures Unfold(Folded(line) + t) == line + Unfold(t)
  {
    var c := Chunk(line);
    var rest := line[|c|..];
    UnfoldContinuations(rest, t);
    ContinuationsStart(rest, t);
    assert line == c + rest;
    UnfoldInFront(c, Continuations(rest), t, rest + Unfold(t));
    Regroup(c, rest, Unfold(t));
  }

  lemma UnfoldInFront(c: string, more: string, t: string, unfolded: string)
    requires NoFeed(c) && !StartsFeed(more + t) && Unfold(more + t) == unfolded
    ensures Unfold(c + more + t) == c + unfolded
  {
    Regroup(c, more, t);
    UnfoldText(c, more + t);
  }

  lemma {:induction false} SplitText(a: string, t: string)
    requires NoFeed(a) && !StartsFeed(t)
    ensures Split(a + t) == [a + Split(t)[0]] + Split(t)[1..]
  {
    if a == "" {
      assert a + t == t;
      assert "" + Split(t)[0] == Split(t)[0];
    } else {
      assert (a + t)[0] == a[0] && (a + t)[1..] == a[1..] + t;
      FeedlessStart(a, t);
      SplitText(a[1..], t);
      var rest := Split(a[1..] + t);
      assert rest[0] == a[1..] + Split(t)[0] && rest[1..] == Split(t)[1..];
      assert [a[0]] + (a[1..] + Split(t)[0]) == a + Split(t)[0];
    }
  }

  // ---------- how wide the folded lines are ----------

  /** Each further physical line is a space and at most 75 characters, and all but the last are full. */
  ghost predicate Narrow(more: seq<string>) {
    && (forall i :: 0 <= i < |more| ==> more[i] != "" && more[i][0] == ' ' && 2 <= |more[i]| <= 76)
    && (forall i :: 0 <= i < |more| - 1 ==> |more[i]| == 76)
  }

  lemma {:induction false} ContinuationsAreNarrow(s: string) returns (more: seq<string>)
    requires NoFeed(s)
    ensures Split(Continuations(s)) == [""] + more && Narrow(more)
    ensures s == "" <==> more == []
    decreases |s|
  {
    if s == "" {
      more := [];
    } else {
      var c := Chunk(s);
      var rest := Continuations(s[|c|..]);
      var later := ContinuationsAreNarrow(s[|c|..]);
      assert !StartsFeed(rest) by { ContinuationsStart(s[|c|..], ""); assert rest + "" == rest; }
      SplitText(" " + c, rest);
      assert CRLF + " " + c + rest == CRLF + (" " + c + rest);
      SplitBreak(" " + c + rest);
      assert " " + c + "" == " " + c;
      more := [" " + c] + later;
      assert Split(" " + c + rest) == more;
    }
  }

  /** A folded line is written as one line of at most 75 characters, or a full one and its continuations. */
  lemma FoldedIsNarrow(line: string) returns (more: seq<string>)
    requires NoFeed(line)
    ensures Split(Folded(line)) == [Chunk(line)] + more && Narrow(more)
    ensures |Chunk(line)| <= 75 && (more != [] ==> |Chunk(line)| == 75) && (more == [] <==> |line| <= 75)
  {
    var c := Chunk(line);
    var rest := Continuations(line[|c|..]);
    more := ContinuationsAreNarrow(line[|c|..]);
    assert !StartsFeed(rest) by { ContinuationsStart(line[|c|..], ""); assert rest + "" == rest; }
    SplitText(c, rest);
    assert c + "" == c;
  }

  // ---------- what is read back ----------

  /** Lines after the first, as they are read: one that starts with a blank joins the line before. */
  function ReadFollowing(lines: seq<string>): (r: seq<string>)
    ensures |r| >= 1
  {
    if lines == [] then [""]
    else
      var rest := ReadFollowing(lines[1..]);
      if StartsBlank(lines[0]) then [lines[0][1..] + rest[0]] + rest[1..]
      else [""] + ([lines[0] + rest[0]] + rest[1..])
  }

  function ReadBack(lines: seq<string>): seq<string>
    requires lines != []
  {
    var rest := ReadFollowing(lines[1..]);
    [lines[0] + rest[0]] + rest[1..]
  }

  ghost predicate NoFeedIn(lines: seq<string>) {
    forall i :: 0 <= i < |lines| ==> NoFeed(lines[i])
  }

  /** Only the first line may start with a blank. */
  ghost predicate NoneBlank(lines: seq<string>) {
    forall i :: 0 <= i < |lines| ==> !StartsBlank(lines[i])
  }

  lemma {:induction false} UnfoldFollowing(lines: seq<string>)
    requires NoFeedIn(lines)
    ensures Split(Unfold(Following(lines))) == ReadFollowing(lines)
    ensures !StartsFeed(Following(lines)) && !StartsFeed(Unfold(Following(lines)))
  {
    if lines != [] {
      var after := Following(lines[1..]);
      UnfoldFollowing(lines[1..]);
      FoldedStart(lines[0], after, lines[1..]);
      UnfoldLine(lines[0], after);
      SplitLine(lines[0], Unfold(after));
    }
  }

  /** A line behind a line break, as it is read: without the break if it starts with a blank. */
  function Joined(line: string, t: string): string {
    if StartsBlank(line) then line[1..] + t else CRLF + (line + t)
  }

  lemma UnfoldLine(line: string, after: string)
    requires NoFeed(line) && !StartsFeed(after) && (StartsBlank(Folded(line) + after) <==> StartsBlank(line))
    ensures Unfold(CRLF + (Folded(line) + after)) == Joined(line, Unfold(after))
  {
    UnfoldBreak(Folded(line) + after);
    UnfoldFolded(line, after);
    if StartsBlank(line) {
      UnfoldBehindBlank(Folded(line) + after, line, Unfold(after));
    }
  }

  lemma SplitLine(line: string, t: string)
    requires NoFeed(line) && !StartsFeed(t)
    ensures Split(Joined(line, t)) ==
              if StartsBlank(line) then [line[1..] + Split(t)[0]] + Split(t)[1..]
              else [""] + ([line + Split(t)[0]] + Split(t)[1..])
  {
    if StartsBlank(line) {
      SplitText(line[1..], t);
    } else {
      SplitText(line, t);
      SplitBreak(line + t);
    }
  }

  lemma UnfoldBehindBlank(x: string, line: string, t: string)
    requires StartsBlank(x) && StartsBlank(line) && Unfold(x) == line + t
    ensures Unfold(x[1..]) == line[1..] + t
  {
    UnfoldKept(x);
    assert (line + t)[1..] == line[1..] + t;
    assert Unfold(x)[1..] == Unfold(x[1..]);
  }

  lemma SplitBreak(t: string)
    ensures Split(CRLF + t) == [""] + Split(t)
  {
  }

  /** A folded line starts with a blank exactly when the line does, whatever follows. */
  lemma FoldedStart(line: string, after: string, lines: seq<string>)
    requires NoFeed(line) && after == Following(lines)
    ensures StartsBlank(Folded(line) + after) <==> StartsBlank(line)
    ensures line != "" ==> Folded(line) != "" && Folded(line)[0] == line[0]
  {
  }

  lemma ReadsBack(lines: seq<string>)
    requires lines != [] && NoFeedIn(lines)
    ensures Split(Unfold(FoldIcsLines(lines))) == ReadBack(lines)
  {
    var after := Following(lines[1..]);
    UnfoldFolded(lines[0], after);
    UnfoldFollowing(lines[1..]);
    SplitText(lines[0], Unfold(after));
  }

  lemma {:induction false} ReadFollowingIsExact(lines: seq<string>)
    ensures |ReadFollowing(lines)| <= |lines| + 1
    ensures NoneBlank(lines) ==> ReadFollowing(lines) == [""] + lines
    ensures !NoneBlank(lines) ==> |ReadFollowing(lines)| <= |lines|
  {
    if lines != [] {
      ReadFollowingIsExact(lines[1..]);
      if NoneBlank(lines) {
        var rest := ReadFollowing(lines[1..]);
        assert rest[0] == "" && rest[1..] == lines[1..];
        assert lines[0] + "" == lines[0];
        assert lines == [lines[0]] + lines[1..];
      } else if !StartsBlank(lines[0]) {
        assert !NoneBlank(lines[1..]) by {
          var i :| 0 <= i < |lines| && StartsBlank(lines[i]);
          assert lines[1..][i - 1] == lines[i];
        }
      }
    }
  }

  /**
   * Lines without line feeds are read back exactly as they were when there is at least one and no
   * line after the first starts with white space, and only then. No line at all is folded like one
   * empty line.
   */
  lemma FoldRoundTrip(lines: seq<string>)
    requires NoFeedIn(lines)
    ensures Split(Unfold(FoldIcsLines(lines))) == lines <==> lines != [] && NoneBlank(lines[1..])
  {
    if lines == [] {
      NoLinesLookLikeOne();
      return;
    }
    ReadsBack(lines);
    ReadFollowingIsExact(lines[1..]);
    if NoneBlank(lines[1..]) {
      assert ReadBack(lines) == [lines[0] + ""] + lines[1..];
      assert lines[0] + "" == lines[0];
    }
  }

  /** No line at all is folded like one empty line. */
  lemma NoLinesLookLikeOne()
    ensures FoldIcsLines([]) == FoldIcsLines([""]) && Split(Unfold(FoldIcsLines([]))) == [""]
  {
  }

  /**
   * From text to text: content lines made of a name and an escaped value, folded, unfolded, split
   * and unescaped, give back every value with CRLF turned into LF.
   */
  lemma ValuesSurvive(names: seq<string>, values: seq<string>, lines: seq<string>)
    requires |names| == |values| == |lines| > 0
    requires forall i :: 0 <= i < |lines| ==>
               NoFeed(names[i]) && names[i] != "" && !StartsBlank(names[i])
               && lines[i] == names[i] + EscapeIcsText(values[i])
    ensures var read := Split(Unfold(FoldIcsLines(lines)));
            && |read| == |lines|
            && forall i :: 0 <= i < |lines| ==>
                 |names[i]| <= |read[i]| && read[i][..|names[i]|] == names[i]
                 && Unescape(read[i][|names[i]|..]) == ReplaceNewlines(values[i], "\n")
  {
    forall i | 0 <= i < |lines| ensures NoFeed(lines[i]) && !StartsBlank(lines[i]) {
      EscapedBreaks(values[i]);
    }
    FoldRoundTrip(lines);
    forall i | 0 <= i < |lines|
      ensures lines[i][..|names[i]|] == names[i] && Unescape(lines[i][|names[i]|..]) == ReplaceNewlines(values[i], "\n")
    {
      assert lines[i][|names[i]|..] == EscapeIcsText(values[i]);
      UnescapeEscaped(values[i]);
    }
  }
}
