/** `PoemParser`: the YAML frontmatter block and the stanza structure of a poem.
    Decoding YAML is not modelled: the decoder is a parameter, a partial function from
    the text of the block to a document or a failure. */
module Parsing {
  import opened Text
  import opened Wrapping

  // ---------------------------------------------------------------- metadata values

  /** A value of the frontmatter: what `yaml.safe_load` yields for a key. A string, an
      integer, a boolean and `null` are spelled out; any other value (a list, a float, a
      date, a nested mapping) is kept as the text `str()` gives it and its Python
      truthiness, both supplied by the decoder. */
  datatype Value = VStr(s: string) | VInt(i: int) | VBool(b: bool) | VNull | VOther(repr: string, truthy: bool)

  /** A decoded YAML document: a mapping, or any other document (a scalar, a list, or
      nothing at all, which the decoder returns as `None`). */
  datatype Yaml = YMapping(fields: map<string, Value>) | YNull | YOther

  datatype LoadResult = Loaded(doc: Yaml) | YamlError

  const Delimiter: string := "---"

  // ---------------------------------------------------------------- text.split('---', 2)

  /** `text.split('---', 2)` when it yields three pieces: the text before the first
      delimiter, the block between the first two, and everything after the second.
      `None` when the text holds fewer than two delimiters. */
  function SplitFrontmatter(text: string): (r: Option<(string, string, string)>)
    ensures r.Some? ==> text == r.value.0 + Delimiter + r.value.1 + Delimiter + r.value.2
    ensures r.Some? ==> forall i: nat :: i < |r.value.0| ==> !OccursAt(text, Delimiter, i)
    ensures r.Some? ==> forall i: nat :: |r.value.0| + 3 <= i < |r.value.0| + 3 + |r.value.1| ==> !OccursAt(text, Delimiter, i)
  {
    match Find(text, Delimiter, 0)
    case None => None
    case Some(i) =>
      match Find(text, Delimiter, i + 3)
      case None => None
      case Some(j) =>
        DelimitedParts(text, i, j);
        Some((text[..i], text[i + 3..j], text[j + 3..]))
  }

  /** A text cut around two delimiter occurrences. */
  lemma DelimitedParts(text: string, i: nat, j: nat)
    requires i + 3 <= j && OccursAt(text, Delimiter, i) && OccursAt(text, Delimiter, j)
    ensures text == text[..i] + Delimiter + text[i + 3..j] + Delimiter + text[j + 3..]
  {
    assert text == text[..i] + text[i..i + 3] + text[i + 3..j] + text[j..j + 3] + text[j + 3..];
  }

  // ---------------------------------------------------------------- parse_metadata

  /** `PoemParser.parse_metadata` as written: the decoded document is returned whatever
      its kind, so an empty block yields `None` rather than a dictionary. */
  function ParseMetadataAsWritten(text: string, load: string -> LoadResult): (Yaml, string)
  {
    var fallback := (YMapping(map[]), Strip(text));
    if !StartsWith(Strip(text), Delimiter) then fallback
    else match SplitFrontmatter(text)
      case None => fallback
      case Some(parts) =>
        match load(Strip(parts.1))
        case YamlError => fallback
        case Loaded(doc) => (doc, Strip(parts.2))
  }

  /** The metadata a decoded document provides: its mapping, or no keys at all. */
  function MetadataOf(doc: Yaml): map<string, Value>
  {
    if doc.YMapping? then doc.fields else map[]
  }

  /** `PoemParser.parse_metadata` with its result always a dictionary: a frontmatter
      block that decodes to something other than a mapping gives no metadata. */
  function ParseMetadata(text: string, load: string -> LoadResult): (r: (map<string, Value>, string))
    ensures r.1 == ParseMetadataAsWritten(text, load).1
    ensures ParseMetadataAsWritten(text, load).0.YMapping? ==> r.0 == ParseMetadataAsWritten(text, load).0.fields
    ensures !ParseMetadataAsWritten(text, load).0.YMapping? ==> r.0 == map[]
  {
    var (doc, body) := ParseMetadataAsWritten(text, load);
    (MetadataOf(doc), body)
  }

  // ---------------------------------------------------------------- re.split(r'\n\s*\n', s)

  /** The position of the last `'\n'` in `s[lo..hi]`, if any. */
  function LastNewline(s: string, lo: nat, hi: nat): (r: Option<nat>)
    requires lo <= hi <= |s|
    ensures r.Some? ==> lo <= r.value < hi && s[r.value] == '\n'
    ensures r.Some? ==> forall k :: r.value < k < hi ==> s[k] != '\n'
    ensures r.None? ==> forall k :: lo <= k < hi ==> s[k] != '\n'
    decreases hi - lo
  {
    if lo == hi then None
    else if s[hi - 1] == '\n' then Some(hi - 1)
    else LastNewline(s, lo, hi - 1)
  }

  /** The end of a match of `\n\s*\n` that starts at `j`: after the `'\n'` at `j`, `\s*`
      takes the whole whitespace run and gives back characters until a `'\n'` follows. */
  function MatchEnd(s: string, j: nat): (r: Option<nat>)
    ensures r.Some? ==> j + 2 <= r.value <= |s| && s[j] == '\n' && s[r.value - 1] == '\n'
    ensures r.Some? ==> forall m :: j < m < r.value ==> IsSpace(s[m])
    ensures j >= |s| ==> r.None?
  {
    if j < |s| && s[j] == '\n' then
      var runEnd := j + 1 + LeadingSpace(s[j + 1..]);
      match LastNewline(s, j + 1, runEnd)
      case None => None
      case Some(k) =>
        assert forall m :: j < m <= k ==> s[m] == s[j + 1..][m - j - 1];
        Some(k + 1)
    else None
  }

  /** `s` has a blank line at `j`: a `'\n'` there, then only whitespace, then another
      `'\n'`. */
  predicate BlankAt(s: string, j: nat)
  {
    j < |s| && s[j] == '\n' &&
    exists k :: j < k < |s| && s[k] == '\n' && forall m :: j < m < k ==> IsSpace(s[m])
  }

  predicate HasBlankLine(s: string)
  {
    exists j: nat :: j < |s| && BlankAt(s, j)
  }

  /** The leftmost match at or after `from`, as (start, end). */
  function FirstMatch(s: string, from: nat): (r: Option<(nat, nat)>)
    ensures r.Some? ==> from <= r.value.0 && MatchEnd(s, r.value.0) == Some(r.value.1)
    ensures r.Some? ==> forall j :: from <= j < r.value.0 ==> MatchEnd(s, j).None?
    ensures r.None? ==> forall j :: from <= j ==> MatchEnd(s, j).None?
    decreases |s| - from
  {
    if from >= |s| then None
    else
      match MatchEnd(s, from)
      case Some(e) => Some((from, e))
      case None => FirstMatch(s, from + 1)
  }

  /** `re.split(r'\n\s*\n', s[from..])`. */
  function BlankSplitFrom(s: string, from: nat): (r: seq<string>)
    requires from <= |s|
    ensures |r| > 0
    decreases |s| - from
  {
    match FirstMatch(s, from)
    case None => [s[from..]]
    case Some((j, e)) => [s[from..j]] + BlankSplitFrom(s, e)
  }

  function BlankSplit(s: string): seq<string>
  {
    BlankSplitFrom(s, 0)
  }

  // ---------------------------------------------------------------- parse_stanzas

  /** A stanza: its visual lines and the map from visual index to logical index. */
  datatype Stanza = Stanza(lines: seq<string>, lineGroups: map<nat, nat>)

  /** `[s for s in xs if s.strip()]`. */
  function NonBlank(xs: seq<string>): (r: seq<string>)
    ensures forall k :: 0 <= k < |r| ==> !AllSpace(r[k])
    ensures |r| <= |xs|
  {
    if xs == [] then []
    else
      StripEmptyIffAllSpace(xs[0]);
      if Strip(xs[0]) != [] then [xs[0]] + NonBlank(xs[1..]) else NonBlank(xs[1..])
  }

  /** One stanza from the text of one block. */
  function StanzaOf(block: string, wrapLines: bool, maxLineLength: int): Stanza
  {
    var lines := NonBlank(SplitLines(block));
    if wrapLines then Stanza(Wrapped(lines, maxLineLength), GroupsOf(Owners(lines, maxLineLength)))
    else Stanza(lines, IdentityGroups(|lines|))
  }

  function StanzasOf(blocks: seq<string>, wrapLines: bool, maxLineLength: int): (r: seq<Stanza>)
    ensures |r| == |blocks|
  {
    if blocks == [] then []
    else [StanzaOf(blocks[0], wrapLines, maxLineLength)] + StanzasOf(blocks[1..], wrapLines, maxLineLength)
  }

  /** `PoemParser.parse_stanzas`. */
  function ParseStanzas(text: string, wrapLines: bool, maxLineLength: int): seq<Stanza>
  {
    StanzasOf(NonBlank(BlankSplit(Strip(text))), wrapLines, maxLineLength)
  }

  // ---------------------------------------------------------------- metadata lemmas

  /** `text.split('---', 2)` cuts `a + '---' + b + '---' + c` into `a`, `b` and `c` when
      the two delimiters shown are the first two of the text. */
  lemma SplitFrontmatterOf(text: string, a: string, b: string, c: string)
    requires text == a + Delimiter + b + Delimiter + c
    requires forall i: nat :: i < |a| ==> !OccursAt(text, Delimiter, i)
    requires forall i: nat :: |a| + 3 <= i < |a| + 3 + |b| ==> !OccursAt(text, Delimiter, i)
    ensures SplitFrontmatter(text) == Some((a, b, c))
  {
    var i, j := |a|, |a| + 3 + |b|;
    assert text[i..i + 3] == Delimiter;
    assert text[j..j + 3] == Delimiter;
    FindFirst(text, Delimiter, 0, i);
    FindFirst(text, Delimiter, i + 3, j);
    assert text[..i] == a;
    assert text[i + 3..j] == b;
    assert text[j + 3..] == c;
  }

  /** A text `a + '---' + b + '---' + c`, whose first two delimiters are the ones shown
      and whose stripped form starts with `---`, has `c.strip()` as its body and the
      decoded `b.strip()` as its metadata. */
  lemma FrontmatterBody(text: string, load: string -> LoadResult, a: string, b: string, c: string, doc: Yaml)
    requires text == a + Delimiter + b + Delimiter + c
    requires forall i: nat :: i < |a| ==> !OccursAt(text, Delimiter, i)
    requires forall i: nat :: |a| + 3 <= i < |a| + 3 + |b| ==> !OccursAt(text, Delimiter, i)
    requires StartsWith(Strip(text), Delimiter)
    requires load(Strip(b)) == Loaded(doc)
    ensures ParseMetadataAsWritten(text, load) == (doc, Strip(c))
    ensures ParseMetadata(text, load) == (MetadataOf(doc), Strip(c))
  {
    SplitFrontmatterOf(text, a, b, c);
  }

  /** Without a leading `---`, or when the block cannot be split off or decoded, the
      metadata is empty and the body is the whole stripped text. When the block is split
      off, only whitespace precedes it. */
  lemma FrontmatterCases(text: string, load: string -> LoadResult)
    ensures !StartsWith(Strip(text), Delimiter) ==> ParseMetadata(text, load) == (map[], Strip(text))
    ensures SplitFrontmatter(text).None? ==> ParseMetadata(text, load) == (map[], Strip(text))
    ensures SplitFrontmatter(text).Some? && load(Strip(SplitFrontmatter(text).value.1)).YamlError? ==>
              ParseMetadata(text, load) == (map[], Strip(text))
    ensures StartsWith(Strip(text), Delimiter) && SplitFrontmatter(text).Some? ==> AllSpace(SplitFrontmatter(text).value.0)
  {
    if StartsWith(Strip(text), Delimiter) && SplitFrontmatter(text).Some? {
      SpaceBeforeFrontmatter(text);
    }
  }

  lemma SpaceBeforeFrontmatter(text: string)
    requires StartsWith(Strip(text), Delimiter) && SplitFrontmatter(text).Some?
    ensures AllSpace(SplitFrontmatter(text).value.0)
  {
    var a := SplitFrontmatter(text).value.0;
    DelimiterAtLead(text);
    assert |a| <= LeadingSpace(text);
    assert forall i :: 0 <= i < |a| ==> a[i] == text[i];
  }

  /** A stripped text that starts with `---` has it right after the leading whitespace. */
  lemma DelimiterAtLead(text: string)
    requires StartsWith(Strip(text), Delimiter)
    ensures OccursAt(text, Delimiter, LeadingSpace(text))
  {
    var r, lead := Strip(text), LeadingSpace(text);
    assert r[..3] == text[lead..lead + |r|][..3] == text[lead..lead + 3];
  }

  /** The defect of `parse_metadata`: an empty frontmatter block decodes to `None`
      (`yaml.safe_load('')` is `None`), which is returned as the metadata, so the
      `metadata_dict.get(...)` calls that follow fail. The corrected version gives no
      keys and keeps the body. */
  lemma EmptyFrontmatter(load: string -> LoadResult)
    requires load("") == Loaded(YNull)
    ensures ParseMetadataAsWritten("---\n---\nBody", load) == (YNull, "Body")
    ensures ParseMetadata("---\n---\nBody", load) == (map[], "Body")
  {
    var text := "---\n---\nBody";
    EmptyFrontmatterText();
    FrontmatterBody(text, load, "", "\n", "\nBody", YNull);
  }

  /** The facts about "---\n---\nBody" that `FrontmatterBody` asks for. */
  lemma EmptyFrontmatterText()
    ensures var text := "---\n---\nBody";
      && text == "" + Delimiter + "\n" + Delimiter + "\nBody"
      && !OccursAt(text, Delimiter, 3)
      && StartsWith(Strip(text), Delimiter)
      && Strip("\n") == "" && Strip("\nBody") == "Body"
  {
    EmptyFrontmatterShape();
    EmptyFrontmatterStripped();
    StripNewline();
    StripNewlineBody();
  }

  lemma EmptyFrontmatterShape()
    ensures var text := "---\n---\nBody";
      text == "" + Delimiter + "\n" + Delimiter + "\nBody" && !OccursAt(text, Delimiter, 3)
  {
    var text := "---\n---\nBody";
    assert text[3] == '\n';
  }

  lemma EmptyFrontmatterStripped()
    ensures StartsWith(Strip("---\n---\nBody"), Delimiter)
  {
    var text := "---\n---\nBody";
    assert text[0] == '-' && text[|text| - 1] == 'y';
    StripUnpadded(text);
    assert text[..3] == Delimiter;
  }

  lemma StripNewline()
    ensures Strip("\n") == ""
  {
    assert AllSpace("\n");
    StripEmptyIffAllSpace("\n");
  }

  lemma StripNewlineBody()
    ensures Strip("\nBody") == "Body"
  {
    var t := "\nBody";
    assert t[1..] == "Body" && t[1] == 'B';
    assert LeadingSpace(t[1..]) == 0;
    assert LeadingSpace(t) == 1;
    assert t[|t| - 1] == 'y';
    assert TrailingSpace(t) == 0;
  }

  // ---------------------------------------------------------------- blank-line split lemmas

  /** A blank line at `j` is always found by the regular expression. */
  lemma MatchEndComplete(s: string, j: nat)
    requires BlankAt(s, j)
    ensures MatchEnd(s, j).Some?
  {
    var k :| j < k < |s| && s[k] == '\n' && forall m :: j < m < k ==> IsSpace(s[m]);
    var t := s[j + 1..];
    assert forall m :: 0 <= m < k - j ==> t[m] == s[j + 1 + m];
    assert IsSpace(s[k]);
    assert LeadingSpace(t) > k - j - 1;
  }

  /** A blank line in a piece of `s` is a blank line of `s`. */
  lemma BlankAtInPiece(s: string, from: nat, to: nat, x: nat)
    requires from <= to <= |s| && BlankAt(s[from..to], x)
    ensures BlankAt(s, from + x)
  {
    var p := s[from..to];
    var k :| x < k < |p| && p[k] == '\n' && forall m :: x < m < k ==> IsSpace(p[m]);
    assert s[from + k] == '\n';
    assert forall m :: from + x < m < from + k ==> s[m] == p[m - from];
  }

  lemma {:induction false} BlankSplitFromNoBlankLine(s: string, from: nat)
    requires from <= |s|
    ensures forall i :: 0 <= i < |BlankSplitFrom(s, from)| ==> !HasBlankLine(BlankSplitFrom(s, from)[i])
    decreases |s| - from
  {
    var r := BlankSplitFrom(s, from);
    match FirstMatch(s, from)
    case None =>
      assert s[from..] == s[from..|s|];
      forall x: nat | x < |s[from..]| && BlankAt(s[from..], x) ensures false {
        BlankAtInPiece(s, from, |s|, x);
        MatchEndComplete(s, from + x);
      }
    case Some((j, e)) =>
      forall x: nat | x < |s[from..j]| && BlankAt(s[from..j], x) ensures false {
        BlankAtInPiece(s, from, j, x);
        MatchEndComplete(s, from + x);
      }
      BlankSplitFromNoBlankLine(s, e);
  }

  /** No piece of `re.split(r'\n\s*\n', s)` holds a blank line. */
  lemma BlankSplitNoBlankLine(s: string)
    ensures forall i :: 0 <= i < |BlankSplit(s)| ==> !HasBlankLine(BlankSplit(s)[i])
  {
    BlankSplitFromNoBlankLine(s, 0);
  }

  // ---------------------------------------------------------------- stanza lemmas

  /** A parsed stanza: at least one line, no whitespace-only line, a map whose keys are
      exactly the visual indices, and whose values are the logical indices `0 .. n - 1`
      for some `n` between 1 and the number of lines, never decreasing. */
  ghost predicate WellFormed(st: Stanza)
  {
    && |st.lines| > 0
    && (forall k :: 0 <= k < |st.lines| ==> !AllSpace(st.lines[k]))
    && (forall k: nat :: k in st.lineGroups <==> k < |st.lines|)
    && (exists n :: 0 < n <= |st.lines| && st.lineGroups.Values == Below(n))
    && (forall x: nat, y: nat :: x <= y < |st.lines| ==> st.lineGroups[x] <= st.lineGroups[y])
  }

  lemma {:induction false} NonBlankKeeps(xs: seq<string>, k: nat)
    requires k < |xs| && !AllSpace(xs[k])
    ensures |NonBlank(xs)| > 0
    decreases |xs|
  {
    StripEmptyIffAllSpace(xs[0]);
    if k > 0 && Strip(xs[0]) == [] {
      NonBlankKeeps(xs[1..], k - 1);
    }
  }

  /** The filter keeps exactly the pieces that are not blank. */
  lemma {:induction false} NonBlankMembers(xs: seq<string>)
    ensures forall x :: x in NonBlank(xs) <==> x in xs && !AllSpace(x)
    decreases |xs|
  {
    if xs != [] {
      NonBlankMembers(xs[1..]);
      StripEmptyIffAllSpace(xs[0]);
      assert xs == [xs[0]] + xs[1..];
    }
  }

  /** Filtering a concatenation filters each part in turn, so the kept pieces stay in
      their order. */
  lemma {:induction false} NonBlankAppend(a: seq<string>, b: seq<string>)
    ensures NonBlank(a + b) == NonBlank(a) + NonBlank(b)
    decreases |a|
  {
    if a == [] {
      assert a + b == b;
    } else {
      var x, t := a[0], a[1..];
      assert a == [x] + t && a + b == [x] + (t + b);
      NonBlankCons(x, t);
      NonBlankCons(x, t + b);
      NonBlankAppend(t, b);
      AppendAssoc(if Strip(x) != [] then [x] else [], NonBlank(t), NonBlank(b));
    }
  }

  /** The filter on a list with a first piece. */
  lemma NonBlankCons(x: string, rest: seq<string>)
    ensures NonBlank([x] + rest) == (if Strip(x) != [] then [x] else []) + NonBlank(rest)
  {
    var xs := [x] + rest;
    assert xs[0] == x && xs[1..] == rest;
  }

  lemma BelowCard(n: nat)
    ensures |Below(n)| == n
  {
    if n > 0 {
      BelowCard(n - 1);
      assert Below(n) == Below(n - 1) + {n - 1};
    }
  }

  lemma IdentityValues(n: nat)
    ensures IdentityGroups(n).Values == Below(n)
  {
    forall v | v in Below(n) ensures v in IdentityGroups(n).Values {
      assert IdentityGroups(n)[v] == v;
    }
  }

  /** The non-blank lines of a block that is not all whitespace: at least one. */
  lemma BlockLines(block: string)
    requires !AllSpace(block)
    ensures |NonBlank(SplitLines(block))| > 0
  {
    var i :| 0 <= i < |block| && !IsSpace(block[i]);
    SplitLinesKeepsText(block, i);
    var k :| 0 <= k < |SplitLines(block)| && !AllSpace(SplitLines(block)[k]);
    NonBlankKeeps(SplitLines(block), k);
  }

  /** Wrapping non-empty lines none of which is all whitespace gives a well-formed stanza. */
  lemma WrappedWellFormed(lines: seq<string>, maxLineLength: int)
    requires |lines| > 0 && forall k :: 0 <= k < |lines| ==> !AllSpace(lines[k])
    ensures WellFormed(Stanza(Wrapped(lines, maxLineLength), GroupsOf(Owners(lines, maxLineLength))))
  {
    var parts := SegmentsOf(lines, maxLineLength);
    WrappedNotBlank(lines, maxLineLength);
    GroupKeys(lines, maxLineLength);
    GroupValues(lines, maxLineLength);
    OwnersSorted(lines, maxLineLength);
    OwnersOfLength(parts);
    forall i | 0 <= i < |lines| ensures Start(parts, i) < Start(parts, i + 1) {
      PartRun(parts, i);
    }
    StartsGrow(parts, |lines|);
    PrefixOfFlatten(parts, |lines|);
  }

  /** Unwrapped non-empty lines none of which is all whitespace, with the identity map,
      form a well-formed stanza. */
  lemma UnwrappedWellFormed(lines: seq<string>)
    requires |lines| > 0 && forall k :: 0 <= k < |lines| ==> !AllSpace(lines[k])
    ensures WellFormed(Stanza(lines, IdentityGroups(|lines|)))
  {
    IdentityValues(|lines|);
  }

  /** The stanza built from a block that is not all whitespace is well formed, whether or
      not its lines are wrapped; unwrapped, its map is the identity. */
  lemma StanzaOfWellFormed(block: string, wrapLines: bool, maxLineLength: int)
    requires !AllSpace(block)
    ensures WellFormed(StanzaOf(block, wrapLines, maxLineLength))
    ensures !wrapLines ==> StanzaOf(block, wrapLines, maxLineLength).lineGroups == IdentityGroups(|StanzaOf(block, wrapLines, maxLineLength).lines|)
  {
    BlockLines(block);
    var lines := NonBlank(SplitLines(block));
    if wrapLines {
      WrappedWellFormed(lines, maxLineLength);
    } else {
      UnwrappedWellFormed(lines);
    }
  }

  lemma {:induction false} StartsGrow(parts: seq<seq<string>>, n: nat)
    requires n <= |parts|
    requires forall i :: 0 <= i < n ==> Start(parts, i) < Start(parts, i + 1)
    ensures Start(parts, n) >= n
    decreases n
  {
    if n > 0 {
      StartsGrow(parts, n - 1);
    }
  }

  lemma {:induction false} StanzasOfWellFormed(blocks: seq<string>, wrapLines: bool, maxLineLength: int)
    requires forall i :: 0 <= i < |blocks| ==> !AllSpace(blocks[i])
    ensures forall i :: 0 <= i < |blocks| ==> WellFormed(StanzasOf(blocks, wrapLines, maxLineLength)[i])
    decreases |blocks|
  {
    if blocks != [] {
      StanzaOfWellFormed(blocks[0], wrapLines, maxLineLength);
      StanzasOfWellFormed(blocks[1..], wrapLines, maxLineLength);
    }
  }

  /** Every stanza `parse_stanzas` returns is well formed. */
  lemma ParseStanzasWellFormed(text: string, wrapLines: bool, maxLineLength: int)
    ensures forall i :: 0 <= i < |ParseStanzas(text, wrapLines, maxLineLength)| ==>
              WellFormed(ParseStanzas(text, wrapLines, maxLineLength)[i])
  {
    StanzasOfWellFormed(NonBlank(BlankSplit(Strip(text))), wrapLines, maxLineLength);
  }
}
