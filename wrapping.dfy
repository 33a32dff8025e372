/** `LineWrapper.wrap_long_lines`: greedy word wrapping of the lines of one stanza.
    A line longer than the limit is broken at word boundaries; its first segment keeps
    the line's indentation (rewritten as spaces) and every continuation segment is
    indented four spaces further. The wrapper also returns the line-group map from each
    visual segment's index to the index of the input ("logical") line it came from. */
module Wrapping {
  import opened Text

  // ---------------------------------------------------------------- specification

  /** The segments produced from the words still to place, `rest`, when `cur` is the
      segment under construction: a word joins `cur` (after one space) when the result
      fits in `width`, and otherwise `cur` is emitted and a new segment starts with
      `indent` spaces followed by the word. */
  function Pack(cur: string, rest: seq<string>, indent: nat, width: int): (r: seq<string>)
    ensures |r| > 0
    decreases |rest|
  {
    if rest == [] then [cur]
    else if |cur| + 1 + |rest[0]| <= width then Pack(cur + " " + rest[0], rest[1..], indent, width)
    else [cur] + Pack(Spaces(indent) + rest[0], rest[1..], indent, width)
  }

  /** The visual segments one input line becomes. */
  function Segments(line: string, width: int): (r: seq<string>)
    ensures |r| > 0
  {
    var words := Words(Strip(line));
    if |line| <= width || words == [] then [line]
    else Pack(Spaces(LeadingSpace(line)) + words[0], words[1..], LeadingSpace(line) + 4, width)
  }

  /** The segments of every line, line by line. */
  function SegmentsOf(lines: seq<string>, width: int): (parts: seq<seq<string>>)
    ensures |parts| == |lines|
    ensures forall i :: 0 <= i < |lines| ==> parts[i] == Segments(lines[i], width)
  {
    seq(|lines|, i requires 0 <= i < |lines| => Segments(lines[i], width))
  }

  /** The concatenation of a list of segment lists. */
  function Flatten(parts: seq<seq<string>>): seq<string>
  {
    if parts == [] then [] else Flatten(parts[..|parts| - 1]) + parts[|parts| - 1]
  }

  /** For every element of `Flatten(parts)`, the index of the part it came from. */
  function OwnersOf(parts: seq<seq<string>>): seq<nat>
  {
    if parts == [] then [] else OwnersOf(parts[..|parts| - 1]) + Repeat(|parts| - 1, |parts[|parts| - 1]|)
  }

  /** `{i: i for i in range(n)}`: the map of a stanza whose lines are not wrapped. */
  function IdentityGroups(n: nat): map<nat, nat>
  {
    map i | i in Below(n) :: i
  }

  /** Index in `Flatten(parts)` of the first element of part `i`. */
  function Start(parts: seq<seq<string>>, i: nat): nat
    requires i <= |parts|
  {
    |Flatten(parts[..i])|
  }

  /** All segments of all lines, in order: the first result of `wrap_long_lines`. */
  function Wrapped(lines: seq<string>, width: int): seq<string>
  {
    Flatten(SegmentsOf(lines, width))
  }

  /** For every wrapped line, the index of the input line it came from. */
  function Owners(lines: seq<string>, width: int): seq<nat>
  {
    OwnersOf(SegmentsOf(lines, width))
  }

  function Repeat(v: nat, n: nat): seq<nat>
  {
    seq(n, _ => v)
  }

  /** A list of logical indices seen as the dictionary `{k: owners[k]}`. */
  function GroupsOf(owners: seq<nat>): map<nat, nat>
  {
    map k: nat | k < |owners| :: owners[k]
  }

  /** `{0, 1, ..., n - 1}`. */
  function Below(n: nat): (r: set<nat>)
    ensures forall i: nat :: i in r <==> i < n
  {
    if n == 0 then {} else Below(n - 1) + {n - 1}
  }

  /** The words of a list of segments, segment after segment. */
  function AllWords(segs: seq<string>): seq<string>
  {
    if segs == [] then [] else Words(segs[0]) + AllWords(segs[1..])
  }

  /** `s` begins with exactly `n` spaces, followed by a non-space character. */
  predicate Indented(s: string, n: nat)
  {
    n < |s| && s[..n] == Spaces(n) && !IsSpace(s[n])
  }

  /** The first segment is indented by `lead` spaces and every other one by `lead + 4`. */
  predicate IndentedSegments(segs: seq<string>, lead: nat)
  {
    |segs| > 0 && Indented(segs[0], lead) && forall k :: 1 <= k < |segs| ==> Indented(segs[k], lead + 4)
  }

  /** A segment fits in the limit unless it holds at most one word. */
  predicate FitsOrSingle(seg: string, width: int)
  {
    |seg| <= width || |Words(seg)| <= 1
  }

  // ---------------------------------------------------------------- the wrapper

  /** The loop of `wrap_long_lines`, segment by segment; `groups[k]` is the index of the
      line that produced `wrapped[k]`. */
  method WrapLongLines(lines: seq<string>, maxLength: int) returns (wrapped: seq<string>, groups: map<nat, nat>)
    ensures wrapped == Wrapped(lines, maxLength)
    ensures groups == GroupsOf(Owners(lines, maxLength))
  {
    wrapped, groups := [], map[];
    ghost var parts := SegmentsOf(lines, maxLength);
    var originalLineIdx := 0;
    while originalLineIdx < |lines|
      invariant originalLineIdx <= |lines|
      invariant wrapped == Flatten(parts[..originalLineIdx])
      invariant |OwnersOf(parts[..originalLineIdx])| == |wrapped|
      invariant groups == GroupsOf(OwnersOf(parts[..originalLineIdx]))
    {
      PrefixStep(parts, originalLineIdx);
      wrapped, groups := WrapLine(lines[originalLineIdx], maxLength, originalLineIdx, wrapped, groups,
                                  OwnersOf(parts[..originalLineIdx]));
      originalLineIdx := originalLineIdx + 1;
    }
    assert parts[..originalLineIdx] == parts;
  }

  /** One iteration of the outer loop of `wrap_long_lines`: appends the segments of `line`
      to `wrapped` and maps each new index to `lineIdx`. `owners` is the list of logical
      indices that `groups` holds. */
  method WrapLine(line: string, maxLength: int, lineIdx: nat, wrapped0: seq<string>, groups0: map<nat, nat>,
                  ghost owners: seq<nat>)
    returns (wrapped: seq<string>, groups: map<nat, nat>)
    requires |owners| == |wrapped0| && groups0 == GroupsOf(owners)
    ensures wrapped == wrapped0 + Segments(line, maxLength)
    ensures groups == GroupsOf(owners + Repeat(lineIdx, |Segments(line, maxLength)|))
  {
    wrapped, groups := wrapped0, groups0;
    var leadingWhitespace := |line| - |LStrip(line)|;
    var content := Strip(line);
    if |line| <= maxLength {
      GroupsOfSnoc(owners, lineIdx);
      RepeatSnoc(lineIdx, 0);
      groups := groups[|wrapped| := lineIdx];
      wrapped := wrapped + [line];
    } else {
      var words := Words(content);
      if |words| == 0 {
        GroupsOfSnoc(owners, lineIdx);
        RepeatSnoc(lineIdx, 0);
        groups := groups[|wrapped| := lineIdx];
        wrapped := wrapped + [line];
      } else {
        wrapped, groups := WrapWords(words, leadingWhitespace, maxLength, lineIdx, wrapped, groups, owners);
      }
    }
  }

  /** The word loop of `wrap_long_lines` for a line longer than the limit: greedy packing
      of `words` into segments, the first indented by `leadingWhitespace` spaces and the
      others by four more. */
  method WrapWords(words: seq<string>, leadingWhitespace: nat, maxLength: int, lineIdx: nat,
                   wrapped0: seq<string>, groups0: map<nat, nat>, ghost owners: seq<nat>)
    returns (wrapped: seq<string>, groups: map<nat, nat>)
    requires |words| > 0
    requires |owners| == |wrapped0| && groups0 == GroupsOf(owners)
    ensures var segs := Pack(Spaces(leadingWhitespace) + words[0], words[1..], leadingWhitespace + 4, maxLength);
      wrapped == wrapped0 + segs && groups == GroupsOf(owners + Repeat(lineIdx, |segs|))
  {
    wrapped, groups := wrapped0, groups0;
    ghost var segs := Pack(Spaces(leadingWhitespace) + words[0], words[1..], leadingWhitespace + 4, maxLength);
    var currentLine := Spaces(leadingWhitespace) + words[0];
    ghost var done: seq<string> := [];
    var i := 1;
    while i < |words|
      invariant 1 <= i <= |words|
      invariant wrapped == wrapped0 + done
      invariant groups == GroupsOf(owners + Repeat(lineIdx, |done|))
      invariant done + Pack(currentLine, words[i..], leadingWhitespace + 4, maxLength) == segs
    {
      var word := words[i];
      assert words[i..][0] == word && words[i..][1..] == words[i + 1..];
      if |currentLine| + 1 + |word| <= maxLength {
        currentLine := currentLine + " " + word;
      } else {
        GroupsOfSnoc(owners + Repeat(lineIdx, |done|), lineIdx);
        RepeatSnoc(lineIdx, |done|);
        AppendAssoc(owners, Repeat(lineIdx, |done|), [lineIdx]);
        AppendAssoc(done, [currentLine], Pack(Spaces(leadingWhitespace + 4) + word, words[i + 1..], leadingWhitespace + 4, maxLength));
        groups := groups[|wrapped| := lineIdx];
        wrapped, done := wrapped + [currentLine], done + [currentLine];
        currentLine := Spaces(leadingWhitespace + 4) + word;
      }
      i := i + 1;
    }
    GroupsOfSnoc(owners + Repeat(lineIdx, |done|), lineIdx);
    RepeatSnoc(lineIdx, |done|);
    AppendAssoc(owners, Repeat(lineIdx, |done|), [lineIdx]);
    assert words[i..] == [];
    groups := groups[|wrapped| := lineIdx];
    wrapped, done := wrapped + [currentLine], done + [currentLine];
  }

  // ---------------------------------------------------------------- helper lemmas

  lemma GroupsOfSnoc(owners: seq<nat>, v: nat)
    ensures GroupsOf(owners + [v]) == GroupsOf(owners)[|owners| := v]
  {
  }

  lemma RepeatSnoc(v: nat, n: nat)
    ensures Repeat(v, n) + [v] == Repeat(v, n + 1)
  {
  }

  lemma AppendAssoc<T>(a: seq<T>, b: seq<T>, c: seq<T>)
    ensures a + b + c == a + (b + c)
  {
  }

  /** Taking one more part appends that part and its owners. */
  lemma PrefixStep(parts: seq<seq<string>>, i: nat)
    requires i < |parts|
    ensures Flatten(parts[..i + 1]) == Flatten(parts[..i]) + parts[i]
    ensures OwnersOf(parts[..i + 1]) == OwnersOf(parts[..i]) + Repeat(i, |parts[i]|)
  {
    assert parts[..i + 1][..i] == parts[..i];
  }

  // ---------------------------------------------------------------- structure of the line-group map

  predicate NonEmptyParts(parts: seq<seq<string>>)
  {
    forall i :: 0 <= i < |parts| ==> |parts[i]| > 0
  }

  lemma {:induction false} OwnersOfLength(parts: seq<seq<string>>)
    ensures |OwnersOf(parts)| == |Flatten(parts)|
    decreases |parts|
  {
    if parts != [] {
      OwnersOfLength(parts[..|parts| - 1]);
    }
  }

  /** The flattening and owners of a prefix of the parts are a prefix of the whole. */
  lemma {:induction false} PrefixOfFlatten(parts: seq<seq<string>>, j: nat)
    requires j <= |parts|
    ensures |OwnersOf(parts)| == |Flatten(parts)|
    ensures Start(parts, j) <= |Flatten(parts)|
    ensures Flatten(parts)[..Start(parts, j)] == Flatten(parts[..j])
    ensures OwnersOf(parts)[..Start(parts, j)] == OwnersOf(parts[..j])
    decreases |parts|
  {
    OwnersOfLength(parts);
    OwnersOfLength(parts[..j]);
    if j == |parts| {
      assert parts[..j] == parts;
    } else {
      var init := parts[..|parts| - 1];
      PrefixOfFlatten(init, j);
      assert init[..j] == parts[..j];
      OwnersOfLength(init);
    }
  }

  lemma {:induction false} OwnersOfBelow(parts: seq<seq<string>>)
    ensures forall k :: 0 <= k < |OwnersOf(parts)| ==> OwnersOf(parts)[k] < |parts|
    decreases |parts|
  {
    if parts != [] {
      OwnersOfBelow(parts[..|parts| - 1]);
    }
  }

  /** Elements after those of the first `j` parts belong to part `j` or a later one. */
  lemma {:induction false} OwnersOfFrom(parts: seq<seq<string>>, j: nat)
    requires j <= |parts|
    ensures forall k :: Start(parts, j) <= k < |OwnersOf(parts)| ==> OwnersOf(parts)[k] >= j
    decreases |parts|
  {
    OwnersOfLength(parts);
    if j < |parts| {
      var init := parts[..|parts| - 1];
      assert init[..j] == parts[..j];
      OwnersOfFrom(init, j);
      OwnersOfLength(init);
    } else {
      assert parts[..j] == parts;
    }
  }

  /** Part `i` occupies exactly the positions `Start(i)` up to `Start(i + 1)`. */
  lemma PartRun(parts: seq<seq<string>>, i: nat)
    requires i < |parts|
    ensures Start(parts, i) + |parts[i]| == Start(parts, i + 1) <= |Flatten(parts)|
    ensures Flatten(parts)[Start(parts, i)..Start(parts, i + 1)] == parts[i]
    ensures forall k :: 0 <= k < |OwnersOf(parts)| ==>
              (OwnersOf(parts)[k] == i <==> Start(parts, i) <= k < Start(parts, i + 1))
  {
    var a, b := Start(parts, i), Start(parts, i + 1);
    var o := OwnersOf(parts);
    PrefixStep(parts, i);
    PrefixOfFlatten(parts, i + 1);
    OwnersOfLength(parts);
    OwnersOfLength(parts[..i]);
    OwnersOfBelow(parts[..i]);
    OwnersOfFrom(parts, i + 1);
    assert Flatten(parts)[a..b] == Flatten(parts)[..b][a..];
    forall k | 0 <= k < |o|
      ensures o[k] == i <==> a <= k < b
    {
      if k < b {
        assert o[k] == o[..b][k];
      }
    }
  }

  lemma {:induction false} OwnersOfSorted(parts: seq<seq<string>>)
    ensures forall x, y :: 0 <= x <= y < |OwnersOf(parts)| ==> OwnersOf(parts)[x] <= OwnersOf(parts)[y]
    decreases |parts|
  {
    if parts != [] {
      var init := parts[..|parts| - 1];
      OwnersOfSorted(init);
      OwnersOfBelow(init);
    }
  }

  lemma OwnersOfValues(parts: seq<seq<string>>)
    requires NonEmptyParts(parts)
    ensures GroupsOf(OwnersOf(parts)).Values == Below(|parts|)
  {
    var o := OwnersOf(parts);
    OwnersOfBelow(parts);
    OwnersOfLength(parts);
    forall i: nat | i < |parts|
      ensures i in GroupsOf(o).Values
    {
      PartRun(parts, i);
      assert GroupsOf(o)[Start(parts, i)] == i;
    }
  }

  /** The keys of the line-group map are exactly the indices of the wrapped lines. */
  lemma GroupKeys(lines: seq<string>, width: int)
    ensures forall k: nat :: k in GroupsOf(Owners(lines, width)) <==> k < |Wrapped(lines, width)|
  {
    OwnersOfLength(SegmentsOf(lines, width));
  }

  /** Input line `i` owns a non-empty, contiguous run of wrapped lines, from `Start(i)` up
      to `Start(i + 1)`; they are exactly its own segments and no other wrapped line maps
      to `i`. */
  lemma LineRun(lines: seq<string>, width: int, i: nat)
    requires i < |lines|
    ensures var parts := SegmentsOf(lines, width);
      Start(parts, i) < Start(parts, i + 1) <= |Wrapped(lines, width)| &&
      Wrapped(lines, width)[Start(parts, i)..Start(parts, i + 1)] == Segments(lines[i], width) &&
      forall k :: 0 <= k < |Owners(lines, width)| ==>
        (Owners(lines, width)[k] == i <==> Start(parts, i) <= k < Start(parts, i + 1))
  {
    PartRun(SegmentsOf(lines, width), i);
  }

  /** Logical indices never decrease along the wrapped lines. */
  lemma OwnersSorted(lines: seq<string>, width: int)
    ensures forall x, y :: 0 <= x <= y < |Owners(lines, width)| ==> Owners(lines, width)[x] <= Owners(lines, width)[y]
  {
    OwnersOfSorted(SegmentsOf(lines, width));
  }

  /** The values of the line-group map are exactly `0 .. len(lines) - 1`; so for non-empty
      input the largest value plus one, and the number of distinct values, are both
      `len(lines)`. */
  lemma GroupValues(lines: seq<string>, width: int)
    ensures GroupsOf(Owners(lines, width)).Values == Below(|lines|)
  {
    OwnersOfValues(SegmentsOf(lines, width));
  }

  // ---------------------------------------------------------------- content of the segments

  lemma WordsAfterSpaces(n: nat, w: string)
    requires IsWord(w)
    ensures Words(Spaces(n) + w) == [w]
  {
    WordsSpacePrefix(Spaces(n), w);
    WordsOfWord(w);
  }

  lemma WordsAddWord(cur: string, w: string)
    requires IsWord(w)
    ensures Words(cur + " " + w) == Words(cur) + [w]
  {
    WordsAppend(cur, " " + w);
    WordsAfterSpaces(1, w);
    assert Spaces(1) == " ";
    assert cur + " " + w == cur + (" " + w);
  }

  lemma {:induction false} PackKeepsWords(cur: string, rest: seq<string>, indent: nat, width: int)
    requires forall k :: 0 <= k < |rest| ==> IsWord(rest[k])
    ensures AllWords(Pack(cur, rest, indent, width)) == Words(cur) + rest
    decreases |rest|
  {
    if rest == [] {
    } else if |cur| + 1 + |rest[0]| <= width {
      PackKeepsWords(cur + " " + rest[0], rest[1..], indent, width);
      WordsAddWord(cur, rest[0]);
      assert [rest[0]] + rest[1..] == rest;
    } else {
      var next := Spaces(indent) + rest[0];
      PackKeepsWords(next, rest[1..], indent, width);
      WordsAfterSpaces(indent, rest[0]);
      assert ([cur] + Pack(next, rest[1..], indent, width))[1..] == Pack(next, rest[1..], indent, width);
      assert [rest[0]] + rest[1..] == rest;
    }
  }

  /** Wrapping a line neither adds, drops nor reorders words: the words of its segments,
      in order, are `line.strip().split()`. */
  lemma SegmentsKeepWords(line: string, width: int)
    ensures AllWords(Segments(line, width)) == Words(Strip(line))
  {
    WordsOfStrip(line);
    var words := Words(Strip(line));
    if !(|line| <= width || words == []) {
      var lead := LeadingSpace(line);
      PackKeepsWords(Spaces(lead) + words[0], words[1..], lead + 4, width);
      WordsAfterSpaces(lead, words[0]);
      assert [words[0]] + words[1..] == words;
    }
  }

  lemma {:induction false} PackIndents(cur: string, rest: seq<string>, indent: nat, width: int)
    requires forall k :: 0 <= k < |rest| ==> IsWord(rest[k])
    ensures |cur| <= |Pack(cur, rest, indent, width)[0]|
    ensures Pack(cur, rest, indent, width)[0][..|cur|] == cur
    ensures forall k :: 1 <= k < |Pack(cur, rest, indent, width)| ==> Indented(Pack(cur, rest, indent, width)[k], indent)
    decreases |rest|
  {
    if rest == [] {
    } else if |cur| + 1 + |rest[0]| <= width {
      var next := cur + " " + rest[0];
      PackIndents(next, rest[1..], indent, width);
      assert next[..|cur|] == cur;
    } else {
      var next := Spaces(indent) + rest[0];
      PackIndents(next, rest[1..], indent, width);
      var tail := Pack(next, rest[1..], indent, width);
      assert Indented(tail[0], indent) by {
        assert tail[0][..indent] == next[..|next|][..indent];
        assert tail[0][indent] == next[indent] == rest[0][0];
      }
    }
  }

  /** A line within the limit is kept as it is. A longer line that holds words has its
      first segment indented by the line's own leading whitespace and every continuation
      segment by four more spaces. */
  lemma SegmentsIndentation(line: string, width: int)
    ensures |line| <= width ==> Segments(line, width) == [line]
    ensures |line| > width && Words(line) != [] ==> IndentedSegments(Segments(line, width), LeadingSpace(line))
  {
    if |line| > width && Words(line) != [] {
      WordsOfStrip(line);
      LongSegmentsIndented(line, width);
    }
  }

  lemma LongSegmentsIndented(line: string, width: int)
    requires |line| > width && Words(Strip(line)) != []
    ensures IndentedSegments(Segments(line, width), LeadingSpace(line))
  {
    var words := Words(Strip(line));
    FirstSegmentIndented(LeadingSpace(line), words[0], words[1..], width);
  }

  lemma FirstSegmentIndented(lead: nat, word: string, rest: seq<string>, width: int)
    requires IsWord(word) && forall k :: 0 <= k < |rest| ==> IsWord(rest[k])
    ensures IndentedSegments(Pack(Spaces(lead) + word, rest, lead + 4, width), lead)
  {
    var first := Spaces(lead) + word;
    PackIndents(first, rest, lead + 4, width);
    var seg := Pack(first, rest, lead + 4, width)[0];
    assert seg[..lead] == first[..|first|][..lead];
    assert seg[lead] == first[lead] == word[0];
  }

  lemma {:induction false} PackFits(cur: string, rest: seq<string>, indent: nat, width: int)
    requires forall k :: 0 <= k < |rest| ==> IsWord(rest[k])
    requires FitsOrSingle(cur, width)
    ensures forall k :: 0 <= k < |Pack(cur, rest, indent, width)| ==> FitsOrSingle(Pack(cur, rest, indent, width)[k], width)
    decreases |rest|
  {
    if rest == [] {
    } else if |cur| + 1 + |rest[0]| <= width {
      PackFits(cur + " " + rest[0], rest[1..], indent, width);
    } else {
      WordsAfterSpaces(indent, rest[0]);
      PackFits(Spaces(indent) + rest[0], rest[1..], indent, width);
    }
  }

  /** Every segment is within the limit unless it holds at most one word (a single word
      longer than the limit, or a whitespace-only line that is kept as it is). */
  lemma SegmentsWithinWidth(line: string, width: int)
    ensures forall k :: 0 <= k < |Segments(line, width)| ==> FitsOrSingle(Segments(line, width)[k], width)
  {
    WordsOfStrip(line);
    var words := Words(Strip(line));
    if |line| > width && words == [] {
      assert Words(line) == [];
    } else if |line| > width {
      var lead := LeadingSpace(line);
      WordsAfterSpaces(lead, words[0]);
      PackFits(Spaces(lead) + words[0], words[1..], lead + 4, width);
    }
  }

  // ---------------------------------------------------------------- lines that need no wrapping

  lemma {:induction false} FlattenSingletons(parts: seq<seq<string>>)
    requires forall i :: 0 <= i < |parts| ==> |parts[i]| == 1
    ensures Flatten(parts) == seq(|parts|, i requires 0 <= i < |parts| => parts[i][0])
    ensures OwnersOf(parts) == seq(|parts|, i => i)
    decreases |parts|
  {
    if parts != [] {
      FlattenSingletons(parts[..|parts| - 1]);
    }
  }

  /** When no line exceeds the limit, wrapping changes nothing: the lines come back as
      they are and the line-group map is the identity, as with wrapping turned off. */
  lemma WrapShortLines(lines: seq<string>, width: int)
    requires forall i :: 0 <= i < |lines| ==> |lines[i]| <= width
    ensures Wrapped(lines, width) == lines
    ensures GroupsOf(Owners(lines, width)) == IdentityGroups(|lines|)
  {
    var parts := SegmentsOf(lines, width);
    FlattenSingletons(parts);
  }

  // ---------------------------------------------------------------- no blank segment

  /** A line that is not all whitespace yields no whitespace-only segment. */
  lemma SegmentsNotBlank(line: string, width: int)
    requires !AllSpace(line)
    ensures forall k :: 0 <= k < |Segments(line, width)| ==> !AllSpace(Segments(line, width)[k])
  {
    WordsOfSpaces(line);
    SegmentsIndentation(line, width);
    var segs := Segments(line, width);
    if |line| > width {
      forall k | 0 <= k < |segs| ensures !AllSpace(segs[k]) {
        var n := if k == 0 then LeadingSpace(line) else LeadingSpace(line) + 4;
        assert Indented(segs[k], n);
      }
    }
  }

  /** Wrapping lines none of which is all whitespace yields no whitespace-only line. */
  lemma WrappedNotBlank(lines: seq<string>, width: int)
    requires forall i :: 0 <= i < |lines| ==> !AllSpace(lines[i])
    ensures forall k :: 0 <= k < |Wrapped(lines, width)| ==> !AllSpace(Wrapped(lines, width)[k])
  {
    var parts := SegmentsOf(lines, width);
    forall k | 0 <= k < |Flatten(parts)| ensures !AllSpace(Flatten(parts)[k]) {
      var i, j := FlattenAt(parts, k);
      SegmentsNotBlank(lines[i], width);
    }
  }

  /** Element `k` of the flattening is element `j` of part `i`. */
  lemma FlattenAt(parts: seq<seq<string>>, k: nat) returns (i: nat, j: nat)
    requires k < |Flatten(parts)|
    ensures i < |parts| && j < |parts[i]| && Flatten(parts)[k] == parts[i][j]
  {
    OwnersOfLength(parts);
    OwnersOfBelow(parts);
    i := OwnersOf(parts)[k];
    PartRun(parts, i);
    j := k - Start(parts, i);
    assert Flatten(parts)[k] == Flatten(parts)[Start(parts, i)..Start(parts, i + 1)][j];
  }
}
