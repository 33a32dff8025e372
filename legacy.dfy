/** The first revision of the converter: stanzas are the blank-line-separated blocks of
    the text, a card hides one physical line behind a cloze marker and the lines are
    joined with `<br>`, and the notes carry a `stanza.line` label and two tags. The
    slug function is a parameter; the `genanki` model and note objects are reduced to
    their fields and tags. */
module Legacy {
  import opened Text
  import opened Parsing
  import opened Cloze

  // ---------------------------------------------------------------- parse_poem

  /** `[s.strip() for s in re.split(r'\n\s*\n', text.strip()) if s.strip()]`. */
  function Blocks(text: string): seq<string>
  {
    var pieces := NonBlank(BlankSplit(Strip(text)));
    seq(|pieces|, i requires 0 <= i < |pieces| => Strip(pieces[i]))
  }

  /** `parse_poem`: each block split into its lines. */
  function ParsePoem(text: string): seq<seq<string>>
  {
    var blocks := Blocks(text);
    seq(|blocks|, i requires 0 <= i < |blocks| => SplitLines(blocks[i]))
  }

  // ---------------------------------------------------------------- parse_poem lemmas

  /** A piece of text with no whitespace at either end. */
  predicate Unpadded(b: string)
  {
    |b| > 0 && !IsSpace(b[0]) && !IsSpace(b[|b| - 1])
  }

  /** A block `parse_poem` reads back as itself: unpadded, without blank lines. */
  predicate PlainBlock(b: string)
  {
    Unpadded(b) && !HasBlankLine(b)
  }

  /** A line that stays one line: unpadded, without line breaks. */
  predicate PlainLine(a: string)
  {
    Unpadded(a) && NoLineBreak(a)
  }

  /** `parse_poem` never returns an empty stanza, and no line it returns holds a line
      break. */
  lemma ParsePoemNonEmpty(text: string)
    ensures forall i :: 0 <= i < |ParsePoem(text)| ==> |ParsePoem(text)[i]| > 0
    ensures forall i, j :: 0 <= i < |ParsePoem(text)| && 0 <= j < |ParsePoem(text)[i]| ==>
              NoLineBreak(ParsePoem(text)[i][j])
  {
    var pieces := NonBlank(BlankSplit(Strip(text)));
    forall i | 0 <= i < |pieces| ensures Strip(pieces[i]) != [] {
      StripEmptyIffAllSpace(pieces[i]);
    }
  }

  /** A match of the blank-line pattern starts a blank line. */
  lemma MatchEndSound(s: string, j: nat)
    requires MatchEnd(s, j).Some?
    ensures BlankAt(s, j)
  {
    var e := MatchEnd(s, j).value;
    assert j < e - 1 < |s| && s[e - 1] == '\n';
  }

  /** The leftmost match at or after `from`, when no match starts before `j`. */
  lemma FirstMatchAt(s: string, from: nat, j: nat)
    requires from <= j && MatchEnd(s, j).Some?
    requires forall i :: from <= i < j ==> MatchEnd(s, i).None?
    ensures FirstMatch(s, from) == Some((j, MatchEnd(s, j).value))
  {
    var r := FirstMatch(s, from);
    assert r.Some?;
    assert r.value.0 == j;
  }

  lemma {:induction false} FirstMatchNone(s: string, from: nat)
    requires forall i :: from <= i < |s| ==> !BlankAt(s, i)
    ensures FirstMatch(s, from) == None
    decreases |s| - from
  {
    if from < |s| {
      if MatchEnd(s, from).Some? {
        MatchEndSound(s, from);
      }
      FirstMatchNone(s, from + 1);
    }
  }

  /** A blank line that starts inside an unpadded block `b` placed at `from` ends inside
      it too. */
  lemma BlankInsideBlock(s: string, from: nat, b: string, j: nat)
    requires from + |b| <= |s| && s[from..from + |b|] == b && Unpadded(b)
    requires from <= j < from + |b| && BlankAt(s, j)
    ensures BlankAt(b, j - from)
  {
    var k :| j < k < |s| && s[k] == '\n' && forall m :: j < m < k ==> IsSpace(s[m]);
    var last := from + |b| - 1;
    assert s[last] == b[|b| - 1] && !IsSpace(s[last]);
    assert IsSpace(s[j]);
    assert k < from + |b|;
    assert b[k - from] == '\n';
    assert forall m :: j - from < m < k - from ==> b[m] == s[from + m];
  }

  /** The separator `"\n\n"` before a block that starts with a non-space is one match. */
  lemma SeparatorMatch(s: string, j: nat)
    requires j + 2 < |s| && s[j] == '\n' && s[j + 1] == '\n' && !IsSpace(s[j + 2])
    ensures MatchEnd(s, j) == Some(j + 2)
  {
    var t := s[j + 1..];
    assert t[0] == '\n' && t[1] == s[j + 2];
    assert IsSpace('\n');
    assert LeadingSpace(t[1..]) == 0;
    assert LeadingSpace(t) == 1;
  }

  /** No blank line starts inside an unpadded block without blank lines. */
  lemma NoBlankInBlock(s: string, from: nat, b: string)
    requires from + |b| <= |s| && s[from..from + |b|] == b && PlainBlock(b)
    ensures forall i :: from <= i < from + |b| ==> !BlankAt(s, i)
  {
    forall i | from <= i < from + |b| ensures !BlankAt(s, i) {
      if BlankAt(s, i) {
        BlankInsideBlock(s, from, b, i);
      }
    }
  }

  /** The last block is split off whole. */
  lemma LastBlock(s: string, from: nat, b: string)
    requires from + |b| == |s| && s[from..from + |b|] == b && PlainBlock(b)
    ensures BlankSplitFrom(s, from) == [b]
  {
    assert s[from..] == b;
    NoBlankInBlock(s, from, b);
    FirstMatchNone(s, from);
  }

  /** The first match after an unpadded block without blank lines that is followed by
      `"\n\n"` and a non-space is that separator. */
  lemma SeparatedFirst(s: string, from: nat, b: string)
    requires from + |b| + 2 < |s| && s[from..from + |b|] == b && PlainBlock(b)
    requires s[from + |b|] == '\n' && s[from + |b| + 1] == '\n' && !IsSpace(s[from + |b| + 2])
    ensures FirstMatch(s, from) == Some((from + |b|, from + |b| + 2))
  {
    NoBlankInBlock(s, from, b);
    forall i | from <= i < from + |b| ensures MatchEnd(s, i).None? {
      if MatchEnd(s, i).Some? {
        MatchEndSound(s, i);
      }
    }
    SeparatorMatch(s, from + |b|);
    FirstMatchAt(s, from, from + |b|);
  }

  lemma BlankSplitStep(s: string, from: nat, j: nat, e: nat)
    requires from <= |s| && FirstMatch(s, from) == Some((j, e))
    ensures from <= j <= e <= |s|
    ensures BlankSplitFrom(s, from) == [s[from..j]] + BlankSplitFrom(s, e)
  {
  }

  /** Such a block is split off on its own, and the split goes on after the separator. */
  lemma SplitHead(s: string, from: nat, b: string)
    requires from + |b| + 2 < |s| && s[from..from + |b|] == b && PlainBlock(b)
    requires s[from + |b|] == '\n' && s[from + |b| + 1] == '\n' && !IsSpace(s[from + |b| + 2])
    ensures BlankSplitFrom(s, from) == [b] + BlankSplitFrom(s, from + |b| + 2)
  {
    SeparatedFirst(s, from, b);
    BlankSplitStep(s, from, from + |b|, from + |b| + 2);
  }

  /** Where the block, the separator and the rest sit in `s`. */
  lemma JoinLayout(s: string, from: nat, b: string, rest: string)
    requires from <= |s| && s[from..] == b + "\n\n" + rest && |rest| > 0
    ensures from + |b| + 2 < |s| && s[from..from + |b|] == b && s[from + |b| + 2..] == rest
    ensures s[from + |b|] == '\n' && s[from + |b| + 1] == '\n' && s[from + |b| + 2] == rest[0]
  {
    var t := s[from..];
    assert s[from..from + |b|] == t[..|b|];
    assert s[from + |b|] == t[|b|] && s[from + |b| + 1] == t[|b| + 1] && s[from + |b| + 2] == t[|b| + 2];
    assert s[from + |b| + 2..] == t[|b| + 2..];
  }

  /** `s` holds, from `from` on, the given unpadded blocks without blank lines, each
      followed by `"\n\n"` except the last, which ends `s`. */
  predicate Laid(s: string, from: nat, blocks: seq<string>)
    decreases |blocks|
  {
    && |blocks| > 0
    && var b := blocks[0];
    && from + |b| <= |s| && s[from..from + |b|] == b && Unpadded(b) && !HasBlankLine(b)
    && (if |blocks| == 1 then from + |b| == |s|
        else
          && from + |b| + 2 <= |s| && s[from + |b|] == '\n' && s[from + |b| + 1] == '\n'
          && Laid(s, from + |b| + 2, blocks[1..]))
  }

  /** Splitting a text that holds blocks laid out this way gives back the blocks. */
  lemma {:induction false} BlankSplitLaid(s: string, from: nat, blocks: seq<string>)
    requires Laid(s, from, blocks)
    ensures BlankSplitFrom(s, from) == blocks
    decreases |blocks|
  {
    if |blocks| == 1 {
      LastBlock(s, from, blocks[0]);
      assert blocks == [blocks[0]];
    } else {
      var e := LaidStep(s, from, blocks);
      BlankSplitLaid(s, e, blocks[1..]);
      assert blocks == [blocks[0]] + blocks[1..];
    }
  }

  /** Past the first of several laid-out blocks, the split restarts at the next one. */
  lemma LaidStep(s: string, from: nat, blocks: seq<string>) returns (e: nat)
    requires Laid(s, from, blocks) && |blocks| > 1
    ensures e == from + |blocks[0]| + 2 && e <= |s| && Laid(s, e, blocks[1..])
    ensures BlankSplitFrom(s, from) == [blocks[0]] + BlankSplitFrom(s, e)
  {
    var b := blocks[0];
    e := from + |b| + 2;
    assert s[e] == s[e..e + |blocks[1]|][0] == blocks[1][0];
    SplitHead(s, from, b);
  }

  /** Unpadded blocks without blank lines, joined by `"\n\n"`, are laid out this way. */
  lemma {:induction false} JoinLaid(s: string, from: nat, blocks: seq<string>)
    requires |blocks| > 0 && forall i :: 0 <= i < |blocks| ==> PlainBlock(blocks[i])
    requires from <= |s| && s[from..] == Join("\n\n", blocks)
    ensures Laid(s, from, blocks)
    decreases |blocks|
  {
    if |blocks| == 1 {
      JoinLaidOne(s, from, blocks[0]);
    } else {
      JoinStep(s, from, blocks);
      JoinLaid(s, from + |blocks[0]| + 2, blocks[1..]);
      LaidCons(s, from, blocks);
    }
  }

  /** One unpadded block without blank lines that ends the text is a layout. */
  lemma JoinLaidOne(s: string, from: nat, b: string)
    requires PlainBlock(b) && from <= |s| && s[from..] == Join("\n\n", [b])
    ensures Laid(s, from, [b])
  {
    assert s[from..from + |b|] == s[from..];
  }

  /** The first of several joined blocks, its separator, and the remaining blocks. */
  lemma JoinStep(s: string, from: nat, blocks: seq<string>)
    requires |blocks| > 1 && forall i :: 0 <= i < |blocks| ==> PlainBlock(blocks[i])
    requires from <= |s| && s[from..] == Join("\n\n", blocks)
    ensures from + |blocks[0]| + 2 <= |s| && s[from..from + |blocks[0]|] == blocks[0]
    ensures s[from + |blocks[0]|] == '\n' && s[from + |blocks[0]| + 1] == '\n'
    ensures s[from + |blocks[0]| + 2..] == Join("\n\n", blocks[1..])
    ensures forall i :: 0 <= i < |blocks| - 1 ==> PlainBlock(blocks[1..][i])
  {
    JoinFirstUnpadded(blocks[1..]);
    JoinLayout(s, from, blocks[0], Join("\n\n", blocks[1..]));
  }

  /** A block followed by `"\n\n"` and a layout of the remaining blocks is a layout. */
  lemma LaidCons(s: string, from: nat, blocks: seq<string>)
    requires |blocks| > 1 && PlainBlock(blocks[0])
    requires from + |blocks[0]| + 2 <= |s| && s[from..from + |blocks[0]|] == blocks[0]
    requires s[from + |blocks[0]|] == '\n' && s[from + |blocks[0]| + 1] == '\n'
    requires Laid(s, from + |blocks[0]| + 2, blocks[1..])
    ensures Laid(s, from, blocks)
  {
  }

  /** Blocks joined by blank lines start with the first block's first character. */
  lemma JoinFirstUnpadded(blocks: seq<string>)
    requires |blocks| > 0 && Unpadded(blocks[0])
    ensures |Join("\n\n", blocks)| > 0 && Join("\n\n", blocks)[0] == blocks[0][0]
  {
  }

  /** Blocks joined by blank lines end with the last block's last character. */
  lemma {:induction false} JoinLastUnpadded(blocks: seq<string>)
    requires |blocks| > 0 && Unpadded(blocks[|blocks| - 1])
    ensures var t := Join("\n\n", blocks); |t| > 0 && t[|t| - 1] == blocks[|blocks| - 1][|blocks[|blocks| - 1]| - 1]
  {
    if |blocks| > 1 {
      JoinLastUnpadded(blocks[1..]);
    }
  }

  /** Filtering out blank pieces keeps a sequence that has none. */
  lemma {:induction false} NonBlankKeepsAll(xs: seq<string>)
    requires forall k :: 0 <= k < |xs| ==> Unpadded(xs[k])
    ensures NonBlank(xs) == xs
  {
    if xs != [] {
      StripUnpadded(xs[0]);
      NonBlankKeepsAll(xs[1..]);
      assert xs == [xs[0]] + xs[1..];
    }
  }

  /** The blank-line split of the stripped text of joined blocks gives back the blocks. */
  lemma JoinedSplit(blocks: seq<string>)
    requires |blocks| > 0 && forall i :: 0 <= i < |blocks| ==> PlainBlock(blocks[i])
    ensures BlankSplit(Strip(Join("\n\n", blocks))) == blocks
  {
    var text := Join("\n\n", blocks);
    JoinFirstUnpadded(blocks);
    JoinLastUnpadded(blocks);
    StripUnpadded(text);
    assert text[0..] == text;
    JoinLaid(text, 0, blocks);
    BlankSplitLaid(text, 0, blocks);
  }

  /** The blocks `parse_poem` finds in unpadded blocks without blank lines, joined by one
      blank line each, are those blocks. */
  lemma PoemBlocks(blocks: seq<string>)
    requires |blocks| > 0 && forall i :: 0 <= i < |blocks| ==> PlainBlock(blocks[i])
    ensures Blocks(Join("\n\n", blocks)) == blocks
  {
    JoinedSplit(blocks);
    NonBlankKeepsAll(blocks);
    StripAll(blocks);
  }

  /** Stripping leaves unpadded pieces as they are. */
  lemma StripAll(xs: seq<string>)
    requires forall k :: 0 <= k < |xs| ==> Unpadded(xs[k])
    ensures seq(|xs|, i requires 0 <= i < |xs| => Strip(xs[i])) == xs
  {
    forall i | 0 <= i < |xs| ensures Strip(xs[i]) == xs[i] {
      StripUnpadded(xs[i]);
    }
  }

  /** Round trip of `parse_poem`: such joined blocks parse back into the blocks, each
      split into its lines. */
  lemma PoemRoundTrip(blocks: seq<string>)
    requires |blocks| > 0 && forall i :: 0 <= i < |blocks| ==> PlainBlock(blocks[i])
    ensures ParsePoem(Join("\n\n", blocks)) == seq(|blocks|, i requires 0 <= i < |blocks| => SplitLines(blocks[i]))
  {
    PoemBlocks(blocks);
  }

  /** The first line of `s` ends at the first line break. */
  lemma LineEndAt(s: string, j: nat)
    requires j <= |s| && (j == |s| || IsLineBreak(s[j]))
    requires forall i :: 0 <= i < j ==> !IsLineBreak(s[i])
    ensures LineEnd(s) == j
  {
  }

  /** One unpadded line is a block without blank lines that splits into itself. */
  lemma OneLine(a: string)
    requires PlainLine(a)
    ensures PlainBlock(a) && SplitLines(a) == [a]
  {
    LineEndAt(a, |a|);
  }

  /** Two unpadded lines joined by a newline form an unpadded block without blank lines
      that splits back into the two lines. */
  lemma TwoLines(s: string, a: string, b: string)
    requires s == a + "\n" + b
    requires PlainLine(a) && PlainLine(b)
    ensures PlainBlock(s) && SplitLines(s) == [a, b]
  {
    TwoLinesSplit(a, b);
    forall j: nat | j < |s| && s[j] == '\n' ensures !BlankAt(s, j) {
      assert forall i :: 0 <= i < |a| ==> s[i] == a[i] && !IsLineBreak(a[i]);
      assert IsLineBreak('\n');
      assert j == |a|;
      assert forall k :: |a| < k < |s| ==> s[k] == b[k - |a| - 1];
    }
  }

  lemma TwoLinesSplit(a: string, b: string)
    requires PlainLine(a) && PlainLine(b)
    ensures SplitLines(a + "\n" + b) == [a, b]
  {
    var s := a + "\n" + b;
    assert forall i :: 0 <= i < |a| ==> s[i] == a[i];
    assert IsLineBreak('\n');
    LineEndAt(s, |a|);
    assert s[..|a|] == a && s[|a| + 1..] == b;
    OneLine(b);
  }

  /** `"Line " + d` for a digit `d` is one unpadded line. */
  lemma NumberedLine(d: char)
    requires '0' <= d <= '9'
    ensures PlainLine("Line " + [d])
  {
  }

  /** Five unpadded lines laid out as two, two and one lines separated by blank lines
      parse into those three stanzas. */
  lemma ThreeStanzas(a1: string, a2: string, a3: string, a4: string, a5: string)
    requires PlainLine(a1) && PlainLine(a2) && PlainLine(a3) && PlainLine(a4) && PlainLine(a5)
    ensures ParsePoem((a1 + "\n" + a2) + "\n\n" + (a3 + "\n" + a4) + "\n\n" + a5) == [[a1, a2], [a3, a4], [a5]]
  {
    var b1, b2 := a1 + "\n" + a2, a3 + "\n" + a4;
    TwoLines(b1, a1, a2);
    TwoLines(b2, a3, a4);
    OneLine(a5);
    JoinThree("\n\n", b1, b2, a5);
    PlainThree(b1, b2, a5);
    PoemRoundTrip([b1, b2, a5]);
    var parsed := ParsePoem(b1 + "\n\n" + b2 + "\n\n" + a5);
    assert |parsed| == 3 && parsed[0] == [a1, a2] && parsed[1] == [a3, a4] && parsed[2] == [a5];
    ThreeElements(parsed, [a1, a2], [a3, a4], [a5]);
  }

  lemma ThreeElements<T>(p: seq<T>, x: T, y: T, z: T)
    requires |p| == 3 && p[0] == x && p[1] == y && p[2] == z
    ensures p == [x, y, z]
  {
  }

  lemma PlainThree(x: string, y: string, z: string)
    requires PlainBlock(x) && PlainBlock(y) && PlainBlock(z)
    ensures forall i :: 0 <= i < 3 ==> PlainBlock([x, y, z][i])
  {
  }

  /** The first example of the original tests: three blocks separated by blank lines. */
  lemma ParsePoemSample()
    ensures ParsePoem("Line 1\nLine 2\n\nLine 3\nLine 4\n\nLine 5")
         == [["Line 1", "Line 2"], ["Line 3", "Line 4"], ["Line 5"]]
  {
    SampleLines();
    SampleText();
    ThreeStanzas("Line 1", "Line 2", "Line 3", "Line 4", "Line 5");
  }

  lemma SampleLines()
    ensures PlainLine("Line 1") && PlainLine("Line 2") && PlainLine("Line 3")
    ensures PlainLine("Line 4") && PlainLine("Line 5")
  {
    NumberedLine('1');
    NumberedLine('2');
    NumberedLine('3');
    NumberedLine('4');
    NumberedLine('5');
  }

  lemma SampleText()
    ensures "Line 1\nLine 2\n\nLine 3\nLine 4\n\nLine 5"
         == ("Line 1" + "\n" + "Line 2") + "\n\n" + ("Line 3" + "\n" + "Line 4") + "\n\n" + "Line 5"
  {
  }

  // ---------------------------------------------------------------- cloze_stanza

  /** The slot a Python index `i` names in a list of length `n`: negative indices count
      from the end. */
  function PyIndex(i: int, n: nat): (k: nat)
    requires -(n as int) <= i < n
    ensures k < n && (k == i || k == i + n)
  {
    if i < 0 then i + n else i
  }

  /** `cloze_stanza`: copy the lines, put the line at `blank_idx` behind a cloze marker
      and join the copy with `<br>`. An index outside the list raises `IndexError`,
      which the precondition excludes. */
  method ClozeStanza(lines: seq<string>, blankIdx: int) returns (r: string)
    requires -(|lines| as int) <= blankIdx < |lines|
    ensures r == Join("<br>", MarkedLines(lines, {PyIndex(blankIdx, |lines|)}))
  {
    var safe := lines;
    var k := if blankIdx < 0 then blankIdx + |lines| else blankIdx;
    safe := safe[k := Mark(safe[k])];
    assert safe == MarkedLines(lines, {k});
    r := Join("<br>", safe);
  }

  /** A cloze marker holds no `<`, so no `<br>`. */
  lemma MarkNoBr(line: string)
    ensures !Contains(Mark(line), "<br>")
  {
    var m := Mark(line);
    forall i: nat | i <= |m| ensures !OccursAt(m, "<br>", i) {
      if i + 4 <= |m| {
        assert m[i..i + 4][0] == m[i];
        assert m[i] != '<' by {
          if 6 <= i < 6 + |HtmlEscape(line)| {
            assert m[i] == HtmlEscape(line)[i - 6];
          }
        }
      }
    }
  }

  /** Splitting a card of `cloze_stanza` on `<br>` gives back the stanza's lines with
      the chosen one, and only it, replaced by a marker whose unescaped content is that
      line, provided no line holds `<br>` itself. */
  lemma ClozeStanzaRoundTrip(lines: seq<string>, k: nat)
    requires k < |lines|
    requires forall j :: 0 <= j < |lines| ==> !Contains(lines[j], "<br>")
    ensures var parts := SplitOn(Join("<br>", MarkedLines(lines, {k})), "<br>");
      && |parts| == |lines|
      && (forall j :: 0 <= j < |lines| && j != k ==> parts[j] == lines[j])
      && |parts[k]| >= 8 && StartsWith(parts[k], "{{c1::") && EndsWith(parts[k], "}}")
      && Unmark(parts[k]) == lines[k]
  {
    var safe := MarkedLines(lines, {k});
    MarkNoBr(lines[k]);
    BrBorderless();
    SplitOnJoin("<br>", safe);
    MarkedSlots(lines, map[k := k], k);
    assert Targets(map[k := k], k) == {k};
  }

  /** Hiding the middle of three lines, when that line holds nothing `html.escape`
      rewrites. */
  lemma ClozeMiddle(x: string, y: string, z: string)
    requires forall i :: 0 <= i < |y| ==> y[i] != '&' && !IsMarkup(y[i])
    ensures Join("<br>", MarkedLines([x, y, z], {1})) == x + "<br>" + ("{{c1::" + y + "}}") + "<br>" + z
  {
    EscapePlain(y);
    var marked := MarkedLines([x, y, z], {1});
    ThreeElements(marked, x, "{{c1::" + y + "}}", z);
    JoinThree("<br>", x, "{{c1::" + y + "}}", z);
  }

  /** The second example of the original tests: the middle line of three is hidden. */
  lemma ClozeStanzaSample()
    ensures Join("<br>", MarkedLines(["First line", "Second line", "Third line"], {1}))
         == "First line" + "<br>" + ("{{c1::" + "Second line" + "}}") + "<br>" + "Third line"
  {
    ClozeMiddle("First line", "Second line", "Third line");
  }

  // ---------------------------------------------------------------- build_notes

  /** A note of the first revision: its four fields `Text`, `LineNo`, `Title` and
      `Author`, and its tags. */
  datatype LegacyNote = LegacyNote(text: string, lineNo: string, title: string, author: string, tags: seq<string>)

  /** The `LineNo` field: stanza number and line number, both counted from one. */
  function LineNo(stanzaNo: nat, lineNo: nat): string
  {
    NatToString(stanzaNo) + "." + NatToString(lineNo)
  }

  /** The note for line `l` (from zero) of the stanza numbered `stanzaNo` (from one). */
  function LineNote(stanza: seq<string>, stanzaNo: nat, l: nat, title: string, poet: string,
                    slug: string -> string): LegacyNote
    requires l < |stanza|
  {
    LegacyNote(Join("<br>", MarkedLines(stanza, {l})), LineNo(stanzaNo, l + 1), title, poet,
               ["title:" + slug(title), "author:" + slug(poet)])
  }

  /** The notes of one stanza, one per line, in line order. */
  function StanzaNotes(stanza: seq<string>, stanzaNo: nat, title: string, poet: string,
                       slug: string -> string): seq<LegacyNote>
  {
    seq(|stanza|, l requires 0 <= l < |stanza| => LineNote(stanza, stanzaNo, l, title, poet, slug))
  }

  /** The notes of a poem: the notes of each stanza in stanza order, stanzas numbered
      from one. */
  function PoemNotes(stanzas: seq<seq<string>>, title: string, poet: string, slug: string -> string): seq<LegacyNote>
  {
    if stanzas == [] then []
    else PoemNotes(stanzas[..|stanzas| - 1], title, poet, slug)
         + StanzaNotes(stanzas[|stanzas| - 1], |stanzas|, title, poet, slug)
  }

  /** The number of lines in all stanzas. */
  function LineTotal(stanzas: seq<seq<string>>): nat
  {
    if stanzas == [] then 0 else LineTotal(stanzas[..|stanzas| - 1]) + |stanzas[|stanzas| - 1]|
  }

  /** Where line `l` of stanza `s` (both from zero) falls in the poem's line order. */
  function Position(stanzas: seq<seq<string>>, s: nat, l: nat): nat
    requires s <= |stanzas|
  {
    LineTotal(stanzas[..s]) + l
  }

  /** `build_notes`: parse the poem, then one note per line. */
  method BuildNotes(poemTxt: string, title: string, poet: string, slug: string -> string)
    returns (notes: seq<LegacyNote>)
    ensures notes == PoemNotes(ParsePoem(poemTxt), title, poet, slug)
  {
    var stanzas := ParsePoem(poemTxt);
    notes := NotesFor(stanzas, title, poet, slug);
  }

  /** The loops of `build_notes`: for each stanza in order and each of its lines in
      order, one note whose text hides that line, labelled `stanza.line`, with the
      title, the author and the two slug tags. */
  method NotesFor(stanzas: seq<seq<string>>, title: string, poet: string, slug: string -> string)
    returns (notes: seq<LegacyNote>)
    ensures notes == PoemNotes(stanzas, title, poet, slug)
  {
    notes := [];
    var s := 0;
    while s < |stanzas|
      invariant s <= |stanzas|
      invariant notes == PoemNotes(stanzas[..s], title, poet, slug)
    {
      var stanza := stanzas[s];
      ghost var before := notes;
      var l := 0;
      while l < |stanza|
        invariant l <= |stanza|
        invariant notes == before + StanzaNotes(stanza, s + 1, title, poet, slug)[..l]
      {
        var text := ClozeStanza(stanza, l);
        var tags := ["title:" + slug(title), "author:" + slug(poet)];
        var note := LegacyNote(text, NatToString(s + 1) + "." + NatToString(l + 1), title, poet, tags);
        StanzaNotesStep(before, stanza, s + 1, l, text, title, poet, slug);
        notes := notes + [note];
        l := l + 1;
      }
      PoemNotesStep(stanzas, s, title, poet, slug);
      s := s + 1;
    }
    assert stanzas[..s] == stanzas;
  }

  /** The note `build_notes` appends for line `l` is that line's note. */
  lemma StanzaNotesStep(before: seq<LegacyNote>, stanza: seq<string>, stanzaNo: nat, l: nat, text: string,
                        title: string, poet: string, slug: string -> string)
    requires l < |stanza| && text == Join("<br>", MarkedLines(stanza, {PyIndex(l, |stanza|)}))
    ensures before + StanzaNotes(stanza, stanzaNo, title, poet, slug)[..l + 1]
         == before + StanzaNotes(stanza, stanzaNo, title, poet, slug)[..l]
            + [LegacyNote(text, NatToString(stanzaNo) + "." + NatToString(l + 1), title, poet,
                          ["title:" + slug(title), "author:" + slug(poet)])]
  {
    var notes := StanzaNotes(stanza, stanzaNo, title, poet, slug);
    assert notes[..l + 1] == notes[..l] + [notes[l]];
  }

  lemma PoemNotesStep(stanzas: seq<seq<string>>, s: nat, title: string, poet: string, slug: string -> string)
    requires s < |stanzas|
    ensures PoemNotes(stanzas[..s + 1], title, poet, slug)
         == PoemNotes(stanzas[..s], title, poet, slug) + StanzaNotes(stanzas[s], s + 1, title, poet, slug)[..|stanzas[s]|]
  {
    assert stanzas[..s + 1][..s] == stanzas[..s];
    var last := StanzaNotes(stanzas[s], s + 1, title, poet, slug);
    assert last[..|stanzas[s]|] == last;
  }

  // ---------------------------------------------------------------- build_notes lemmas

  /** One note per line of the poem. */
  lemma {:induction false} NotesCount(stanzas: seq<seq<string>>, title: string, poet: string, slug: string -> string)
    ensures |PoemNotes(stanzas, title, poet, slug)| == LineTotal(stanzas)
  {
    if stanzas != [] {
      NotesCount(stanzas[..|stanzas| - 1], title, poet, slug);
    }
  }

  /** The note at the position of line `l` of stanza `s` is that line's note: it hides
      exactly that line and is labelled `(s + 1).(l + 1)`. */
  lemma {:induction false} NotePosition(stanzas: seq<seq<string>>, s: nat, l: nat, title: string, poet: string,
                                        slug: string -> string)
    requires s < |stanzas| && l < |stanzas[s]|
    ensures var notes := PoemNotes(stanzas, title, poet, slug);
      && Position(stanzas, s, l) < |notes|
      && notes[Position(stanzas, s, l)] == LineNote(stanzas[s], s + 1, l, title, poet, slug)
  {
    var init := stanzas[..|stanzas| - 1];
    NotesCount(init, title, poet, slug);
    if s == |stanzas| - 1 {
      assert stanzas[..s] == init;
    } else {
      NotePosition(init, s, l, title, poet, slug);
      assert init[..s] == stanzas[..s] && init[s] == stanzas[s];
    }
  }

  /** Every note is the note of some line of the poem. */
  lemma {:induction false} NoteOrigin(stanzas: seq<seq<string>>, k: nat, title: string, poet: string,
                                      slug: string -> string) returns (s: nat, l: nat)
    requires k < |PoemNotes(stanzas, title, poet, slug)|
    ensures s < |stanzas| && l < |stanzas[s]| && k == Position(stanzas, s, l)
  {
    var init := stanzas[..|stanzas| - 1];
    NotesCount(init, title, poet, slug);
    if k < |PoemNotes(init, title, poet, slug)| {
      s, l := NoteOrigin(init, k, title, poet, slug);
      assert init[..s] == stanzas[..s] && init[s] == stanzas[s];
    } else {
      s, l := |stanzas| - 1, k - LineTotal(init);
      assert stanzas[..s] == init;
    }
  }

  /** A stanza's lines come after all lines of the stanzas before it. */
  lemma {:induction false} LineTotalGrows(stanzas: seq<seq<string>>, i: nat, j: nat)
    requires i < j <= |stanzas|
    ensures LineTotal(stanzas[..i]) + |stanzas[i]| <= LineTotal(stanzas[..j])
  {
    assert stanzas[..j][..j - 1] == stanzas[..j - 1];
    if j > i + 1 {
      LineTotalGrows(stanzas, i, j - 1);
    }
  }

  /** Notes are ordered by stanza, then by line. */
  lemma NotesOrdered(stanzas: seq<seq<string>>, s1: nat, l1: nat, s2: nat, l2: nat)
    requires s1 < |stanzas| && l1 < |stanzas[s1]| && s2 < |stanzas| && l2 < |stanzas[s2]|
    requires s1 < s2 || (s1 == s2 && l1 < l2)
    ensures Position(stanzas, s1, l1) < Position(stanzas, s2, l2)
  {
    if s1 < s2 {
      LineTotalGrows(stanzas, s1, s2);
    }
  }

  /** Distinct labels come from distinct lines. */
  lemma LineNoInjective(s1: nat, l1: nat, s2: nat, l2: nat)
    requires LineNo(s1, l1) == LineNo(s2, l2)
    ensures s1 == s2 && l1 == l2
  {
    DottedPairUnique(NatToString(s1), NatToString(l1), NatToString(s2), NatToString(l2));
    NatToStringInjective(s1, s2);
    NatToStringInjective(l1, l2);
  }

  lemma DottedPairUnique(a: string, b: string, c: string, d: string)
    requires AllDigits(a) && AllDigits(c) && a + "." + b == c + "." + d
    ensures a == c && b == d
  {
    assert "" + a == a && "" + c == c;
    DigitFieldsUnique("", ".", a, b, c, d);
  }

  /** No two notes of a poem share a `LineNo` label. */
  lemma NoteLabelsDistinct(stanzas: seq<seq<string>>, i: nat, j: nat, title: string, poet: string,
                           slug: string -> string)
    requires i < j < |PoemNotes(stanzas, title, poet, slug)|
    ensures PoemNotes(stanzas, title, poet, slug)[i].lineNo != PoemNotes(stanzas, title, poet, slug)[j].lineNo
  {
    var s1, l1 := NoteLabel(stanzas, i, title, poet, slug);
    var s2, l2 := NoteLabel(stanzas, j, title, poet, slug);
    if LineNo(s1 + 1, l1 + 1) == LineNo(s2 + 1, l2 + 1) {
      LineNoInjective(s1 + 1, l1 + 1, s2 + 1, l2 + 1);
    }
  }

  /** Each note is labelled with the numbers of the line it comes from. */
  lemma NoteLabel(stanzas: seq<seq<string>>, k: nat, title: string, poet: string, slug: string -> string)
    returns (s: nat, l: nat)
    requires k < |PoemNotes(stanzas, title, poet, slug)|
    ensures s < |stanzas| && l < |stanzas[s]| && k == Position(stanzas, s, l)
    ensures PoemNotes(stanzas, title, poet, slug)[k].lineNo == LineNo(s + 1, l + 1)
  {
    s, l := NoteOrigin(stanzas, k, title, poet, slug);
    NotePosition(stanzas, s, l, title, poet, slug);
  }

  /** Four unpadded lines laid out as two stanzas of two lines parse into those
      stanzas. */
  lemma TwoStanzas(a1: string, a2: string, a3: string, a4: string)
    requires PlainLine(a1) && PlainLine(a2) && PlainLine(a3) && PlainLine(a4)
    ensures ParsePoem((a1 + "\n" + a2) + "\n\n" + (a3 + "\n" + a4)) == [[a1, a2], [a3, a4]]
  {
    var b1, b2 := a1 + "\n" + a2, a3 + "\n" + a4;
    TwoLines(b1, a1, a2);
    TwoLines(b2, a3, a4);
    JoinTwo("\n\n", b1, b2);
    PlainTwo(b1, b2);
    PoemRoundTrip([b1, b2]);
    var parsed := ParsePoem(b1 + "\n\n" + b2);
    assert |parsed| == 2 && parsed[0] == [a1, a2] && parsed[1] == [a3, a4];
    TwoElements(parsed, [a1, a2], [a3, a4]);
  }

  lemma TwoElements<T>(p: seq<T>, x: T, y: T)
    requires |p| == 2 && p[0] == x && p[1] == y
    ensures p == [x, y]
  {
  }

  lemma PlainTwo(x: string, y: string)
    requires PlainBlock(x) && PlainBlock(y)
    ensures forall i :: 0 <= i < 2 ==> PlainBlock([x, y][i])
  {
  }

  /** The first note of a poem hides the first line of the first stanza and is labelled
      `1.1`. */
  lemma FirstNote(stanzas: seq<seq<string>>, title: string, poet: string, slug: string -> string)
    requires |stanzas| > 0 && |stanzas[0]| > 0
    ensures |PoemNotes(stanzas, title, poet, slug)| > 0
    ensures PoemNotes(stanzas, title, poet, slug)[0] == LineNote(stanzas[0], 1, 0, title, poet, slug)
  {
    NotePosition(stanzas, 0, 0, title, poet, slug);
    assert stanzas[..0] == [];
  }

  /** Hiding the first of two lines, when that line holds nothing `html.escape`
      rewrites. */
  lemma ClozeFirst(x: string, y: string)
    requires forall i :: 0 <= i < |x| ==> x[i] != '&' && !IsMarkup(x[i])
    ensures Join("<br>", MarkedLines([x, y], {0})) == ("{{c1::" + x + "}}") + "<br>" + y
  {
    EscapePlain(x);
    var marked := MarkedLines([x, y], {0});
    assert marked == ["{{c1::" + x + "}}", y];
    JoinTwo("<br>", "{{c1::" + x + "}}", y);
  }

  /** Two stanzas of two lines give four notes. */
  lemma FourNotes(a1: string, a2: string, a3: string, a4: string, title: string, poet: string,
                  slug: string -> string)
    ensures |PoemNotes([[a1, a2], [a3, a4]], title, poet, slug)| == 4
  {
    var stanzas := [[a1, a2], [a3, a4]];
    NotesCount(stanzas, title, poet, slug);
    assert stanzas[..1] == [[a1, a2]] && stanzas[..1][..0] == [];
    assert LineTotal(stanzas[..1]) == 2;
  }

  /** Two stanzas of two unpadded lines give four notes; the first hides the first line,
      is labelled `1.1` and carries the title, the author and their slug tags. */
  lemma TwoStanzaNotes(a1: string, a2: string, a3: string, a4: string, title: string, poet: string,
                       slug: string -> string)
    requires PlainLine(a1) && PlainLine(a2) && PlainLine(a3) && PlainLine(a4)
    requires forall i :: 0 <= i < |a1| ==> a1[i] != '&' && !IsMarkup(a1[i])
    ensures var notes := PoemNotes(ParsePoem((a1 + "\n" + a2) + "\n\n" + (a3 + "\n" + a4)), title, poet, slug);
      && |notes| == 4
      && StartsWith(notes[0].text, "{{c1::" + a1 + "}}")
      && notes[0].lineNo == LineNo(1, 1)
      && notes[0].title == title && notes[0].author == poet
      && notes[0].tags == ["title:" + slug(title), "author:" + slug(poet)]
  {
    TwoStanzas(a1, a2, a3, a4);
    FirstOfTwo(a1, a2, a3, a4, title, poet, slug);
  }

  lemma FirstOfTwo(a1: string, a2: string, a3: string, a4: string, title: string, poet: string,
                   slug: string -> string)
    requires forall i :: 0 <= i < |a1| ==> a1[i] != '&' && !IsMarkup(a1[i])
    ensures var notes := PoemNotes([[a1, a2], [a3, a4]], title, poet, slug);
      && |notes| == 4
      && StartsWith(notes[0].text, "{{c1::" + a1 + "}}")
      && notes[0].lineNo == LineNo(1, 1)
      && notes[0].title == title && notes[0].author == poet
      && notes[0].tags == ["title:" + slug(title), "author:" + slug(poet)]
  {
    FourNotes(a1, a2, a3, a4, title, poet, slug);
    FirstNote([[a1, a2], [a3, a4]], title, poet, slug);
    ClozeFirst(a1, a2);
    HeadPrefix("{{c1::" + a1 + "}}", "<br>", a2);
  }

  lemma HeadPrefix(x: string, y: string, z: string)
    ensures StartsWith(x + y + z, x)
  {
    assert (x + y + z)[..|x|] == x;
  }

  /** The third example of the original tests: two stanzas of two lines give four notes;
      the first hides `Line 1`, is labelled `1.1` and carries the title, the author and
      their slug tags. */
  lemma BuildNotesSample(slug: string -> string)
    requires slug("Test Poem") == "test-poem" && slug("Test Author") == "test-author"
    ensures var notes := PoemNotes(ParsePoem("Line 1\nLine 2\n\nLine 3\nLine 4"), "Test Poem", "Test Author", slug);
      && |notes| == 4
      && StartsWith(notes[0].text, "{{c1::" + "Line 1" + "}}")
      && notes[0].lineNo == "1.1"
      && notes[0].title == "Test Poem" && notes[0].author == "Test Author"
      && "title:test-poem" in notes[0].tags && "author:test-author" in notes[0].tags
  {
    SampleLines();
    SampleTwoStanzas();
    TwoStanzaNotes("Line 1", "Line 2", "Line 3", "Line 4", "Test Poem", "Test Author", slug);
    LabelOneOne();
    SampleTags();
  }

  lemma SampleTwoStanzas()
    ensures "Line 1\nLine 2\n\nLine 3\nLine 4" == ("Line 1" + "\n" + "Line 2") + "\n\n" + ("Line 3" + "\n" + "Line 4")
  {
  }

  lemma LabelOneOne()
    ensures LineNo(1, 1) == "1.1"
  {
    assert NatToString(1) == "1";
  }

  lemma SampleTags()
    ensures "title:" + "test-poem" == "title:test-poem"
    ensures "author:" + "test-author" == "author:test-author"
  {
  }
}
