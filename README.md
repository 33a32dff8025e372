# anki-poems: the poem-to-cloze core, modelled in Dafny

anki-poems turns poems written as Markdown files into Anki cloze cards. A poem file may
start with a YAML frontmatter block between `---` lines. The remaining text is split
into stanzas at blank lines and into lines at line breaks. Long lines are wrapped at
word boundaries. Each card shows one stanza with one logical line hidden behind a
`{{c1::…}}` marker, and carries a citation built from the frontmatter.

This project models that pipeline and proves properties about it:

- `text.dfy` (module `Text`): the Python `str` operations the pipeline relies on, written
  over `seq<char>`. These are `isspace`, `strip`, `split()`, `splitlines()`, `find`,
  `join`, `split(sep)`, `html.escape` and `str(int)`.
- `wrapping.dfy` (module `Wrapping`): `LineWrapper.wrap_long_lines`. The loop is an
  imperative method, proved against a specification by segments.
- `parsing.dfy` (module `Parsing`): `PoemParser.parse_metadata` and
  `PoemParser.parse_stanzas`, including the regular-expression split on `\n\s*\n`.
- `display.dfy` (module `Display`): `MetadataFormatter.format_display`.
- `cloze.dfy` (module `Cloze`): `ClozeGenerator.create_cloze_stanza`, as a loop over the
  target slots.
- `notes.dfy` (module `Notes`): `NoteBuilder._create_note`,
  `_build_sequential_notes` and `_build_shuffled_notes`, as methods with loops.
- `decks.dfy` (module `Decks`): the `DeckManager` class. Its `decks` dictionary is a
  field that `get_or_create_deck` updates.
- `legacy.dfy` (module `Legacy`): the first revision of the converter, `poetry_to_anki.py`
  (`parse_poem`, `cloze_stanza`, `build_notes`), and its three tests, stated as lemmas.
- `addpoem.dfy` (module `AddPoem`): `validate_year`, `validate_url` and `create_filename`
  from the interactive poem adder, including Python's `int()` on strings.

Collaborators the model cannot see become parameters:

- the YAML decoder (`load`);
- `slugify` (`slug`, or `slugify(text, max_length)`);
- the MD5 hex digest (`md5Hex`);
- the random generator (`rng`, whose `k`-th value decides the `k`-th draw).

Three behaviours of the code that the model keeps:

- `wrap_long_lines` increments the logical index once for every input line, a
  whitespace-only line included (poetry_to_anki_refactored.py:158, 190).
- The citation line is rendered as `<i>collection</i> (year)`, with the italics
  (poetry_to_anki_refactored.py:210).
- `validate_year` reads the year with Python's `int()`, which accepts underscores between
  digits and surrounding whitespace (add_new_poem.py:42).

## Model

| member | source | states |
|---|---|---|
| Wrapping.WrapLongLines | poetry_to_anki_refactored.py:152-192 | The wrapped lines are every input line's segments, in order. The group map sends each segment's index to the index of the line it came from. |
| Wrapping.WrapLine | poetry_to_anki_refactored.py:158-190 | One iteration of the outer loop appends exactly the line's segments and maps each new index to the line's index. |
| Wrapping.WrapWords | poetry_to_anki_refactored.py:168-188 | The greedy word loop appends the packed segments of the words, starting from the indented first word. Every new slot is mapped to the line. |
| Wrapping.SegmentsKeepWords | poetry_to_anki_refactored.py:161-188 | Wrapping neither loses nor reorders words: the words of all segments are the words of the stripped line. |
| Wrapping.SegmentsIndentation | poetry_to_anki_refactored.py:160-188 | A line within the limit stays as it is. The first segment of a long line keeps its indentation and every continuation is indented four more spaces. |
| Wrapping.SegmentsWithinWidth | poetry_to_anki_refactored.py:176-184 | Every segment fits the limit or holds a single word that alone exceeds it. |
| Wrapping.WrapShortLines | poetry_to_anki_refactored.py:163-165 | When no line exceeds the limit, the lines are unchanged and the map is the identity. |
| Wrapping.GroupKeys | poetry_to_anki_refactored.py:155-188 | The map's keys are exactly the indices of the wrapped lines. |
| Wrapping.GroupValues | poetry_to_anki_refactored.py:156-190 | The map's values are exactly the input line indices `0 .. n-1`. |
| Wrapping.OwnersSorted | poetry_to_anki_refactored.py:156-190 | Logical indices never decrease along the wrapped lines. |
| Wrapping.LineRun | poetry_to_anki_refactored.py:158-190 | The segments of line `i` form one contiguous run of the output. The map sends an index to `i` exactly when it lies in that run. |
| Wrapping.WrappedNotBlank | poetry_to_anki_refactored.py:158-188 | Lines that are not blank give segments that are not blank. |
| Parsing.SplitFrontmatter | poetry_to_anki_refactored.py:118 | `split('---', 2)`: the text is the first piece, `---`, the second piece, `---`, the rest. No delimiter occurs earlier, so these are the first two. |
| Parsing.SplitFrontmatterOf | poetry_to_anki_refactored.py:118 | Conversely, any such decomposition at the first two delimiters is the one `split` returns. |
| Parsing.ParseMetadata | poetry_to_anki_refactored.py:115-126 | The corrected `parse_metadata`: the same body as the code, and the decoded mapping, or no keys when the document is not a mapping. |
| Parsing.FrontmatterBody | poetry_to_anki_refactored.py:117-122 | With a leading frontmatter block that decodes, the metadata is the decoded document and the body is the stripped text after the block. |
| Parsing.FrontmatterCases | poetry_to_anki_refactored.py:117-126 | Without a leading `---`, with fewer than two delimiters, or when decoding fails: no metadata and the whole text stripped. Only whitespace may precede the block. |
| Parsing.EmptyFrontmatter | poetry_to_anki_refactored.py:121-122 | As written, an empty frontmatter block gives `None` as metadata, not a dictionary. The corrected version gives no keys. |
| Parsing.FirstMatch | poetry_to_anki_refactored.py:131 | The leftmost match of `\n\s*\n` at or after a position: it matches there and nowhere earlier, or nowhere at all. |
| Parsing.MatchEnd | poetry_to_anki_refactored.py:131 | A greedy match of `\n\s*\n` from a newline ends just after the last newline of the whitespace run. |
| Parsing.BlankSplitNoBlankLine | poetry_to_anki_refactored.py:131 | No piece of the split contains a blank line. |
| Parsing.NonBlank | poetry_to_anki_refactored.py:131-135 | The `if s.strip()` filter: no piece of the result is blank, and the result is no longer than the input. |
| Parsing.NonBlankMembers | poetry_to_anki_refactored.py:131-135 | A piece is kept exactly when it occurs in the input and is not all whitespace. |
| Parsing.NonBlankAppend | poetry_to_anki_refactored.py:131-135 | The filter of `a + b` is the filter of `a` followed by the filter of `b`: kept pieces stay in input order. |
| Parsing.StanzaOfWellFormed | poetry_to_anki_refactored.py:134-143 | A stanza built from a non-blank block is well formed: it has lines, none of them blank, and its map is keyed by the line indices with values `0 .. n-1`, sorted. Without wrapping the map is the identity. |
| Parsing.ParseStanzasWellFormed | poetry_to_anki_refactored.py:129-145 | Every stanza `parse_stanzas` returns is well formed. |
| Display.FormatDisplay | poetry_to_anki_refactored.py:199-219 | A citation is produced exactly when the author value is a string. Otherwise `'<br>'.join` raises `TypeError`. |
| Display.HeaderPrecedence | poetry_to_anki_refactored.py:201-207 | Title and author: the metadata's value first, then a non-empty argument, then "Unknown Title" or "Unknown Author". |
| Display.OptionalLines | poetry_to_anki_refactored.py:203-217 | A third line `<i>c</i> (y)`, `<i>c</i>` or `(y)` by precedence, absent when neither is set. A final line `<a href="…" target="_blank">Source</a>` holding `url or source`, exactly when that value is truthy. |
| Display.DisplayRoundTrip | poetry_to_anki_refactored.py:207-219 | Splitting the citation at `<br>` gives back its lines, when no field holds `<br>`. |
| Display.ThreeLineCitation | poetry_to_anki_refactored.py:199-219 | Title X, author Y, collection Z and year 1999 without a URL render as `"X"<br>Y<br><i>Z</i> (1999)`. |
| Cloze.CreateClozeStanza | poetry_to_anki_refactored.py:226-238 | The loop marks exactly the in-range slots mapped to the logical line and joins the copy inside `<pre>`. |
| Cloze.MarkedSlots | poetry_to_anki_refactored.py:228-236 | A slot changes exactly when it belongs to the logical line. A changed slot is a `{{c1::…}}` marker whose unescaped content is the original line. |
| Cloze.ClozeRoundTrip | poetry_to_anki_refactored.py:226-238 | The card text is `<pre>…</pre>`, and splitting its inside at newlines gives back the marked lines. |
| Cloze.WrappedCloze | poetry_to_anki_refactored.py:231-236 | On a wrapped stanza, hiding logical line `k` marks exactly the contiguous run of `k`'s segments, each as its own marker, and leaves the rest alone. |
| Cloze.MarkedInterval | poetry_to_anki_refactored.py:234-236 | Marking a range of slots changes those slots only. |
| Notes.CreateNote | poetry_to_anki_refactored.py:310-330 | The note has the cloze text, the label `Stanza s, Line l`, title, author, label + `<br>` + citation, and the tags. |
| Notes.NoteFields | poetry_to_anki_refactored.py:314-329 | A note keeps title and author and starts its metadata with its label. Tags are title and author slugs, plus `pass:n` exactly when a non-zero pass is given, whose digits read back as `n`. |
| Notes.LineInfoInjective | poetry_to_anki_refactored.py:314 | Different (stanza, line) positions give different labels. |
| Notes.AscendingSpec | poetry_to_anki_refactored.py:282 | `sorted(set(values))` holds each value once, strictly increasing. |
| Notes.Greatest | poetry_to_anki_refactored.py:275 | `max` of a non-empty set is a member, at least every member. |
| Notes.BuildSequentialNotes | poetry_to_anki_refactored.py:293-308 | The notes are those of the sequential cards, in order. |
| Notes.AppendStanzaNotes | poetry_to_anki_refactored.py:299-306 | The inner loop appends one note per distinct logical line of the stanza. |
| Notes.SequentialCount | poetry_to_anki_refactored.py:298-306 | The sequential build makes as many notes as there are distinct logical lines over all stanzas. |
| Notes.SequentialSound | poetry_to_anki_refactored.py:298-306 | Every card names a stanza and one of its logical lines, without a pass. |
| Notes.SequentialComplete | poetry_to_anki_refactored.py:298-306 | Every logical line of every stanza gets a card. |
| Notes.SequentialOrdered | poetry_to_anki_refactored.py:298-306 | Cards come stanza by stanza and, within a stanza, in increasing line order. |
| Notes.MaxLogicalLines | poetry_to_anki_refactored.py:272-276 | The loop computes the largest `max(values) + 1` over stanzas with line groups, 0 when there are none. |
| Notes.PassCountBound | poetry_to_anki_refactored.py:272-276 | Every stanza's logical count is at most the number of passes. |
| Notes.WellFormedCount | poetry_to_anki_refactored.py:274-285 | For a parsed stanza, `max(values) + 1` is the number of distinct logical lines, and pass `p` draws from it exactly when `p` is below that. |
| Notes.Pick | poetry_to_anki_refactored.py:286 | `random.choice` picks one of the stanza's logical lines. |
| Notes.BuildShuffledNotes | poetry_to_anki_refactored.py:266-291 | The notes are those of the draws of every pass, in pass order, and the `k`-th draw uses `rng(k)`. |
| Notes.AppendPass | poetry_to_anki_refactored.py:279-289 | One pass appends the draws of that pass, stanza by stanza. |
| Notes.DrawFromStanza | poetry_to_anki_refactored.py:280-289 | A stanza contributes one note in a pass when it has lines and more logical lines than the pass number, otherwise none. |
| Notes.ShuffledTurnsSpec | poetry_to_anki_refactored.py:278-289 | A draw happens for pass `p` (from 1) and stanza `s` exactly when the stanza has lines and at least `p` distinct logical lines. |
| Notes.ShuffledTurnsOrdered | poetry_to_anki_refactored.py:278-289 | Draws come pass by pass and, within a pass, in stanza order. |
| Notes.ShuffledStanzaPasses | poetry_to_anki_refactored.py:278-289 | A stanza with lines is drawn in passes `1 .. n`, `n` its number of distinct logical lines, once each. |
| Notes.ShuffledCards | poetry_to_anki_refactored.py:282-289 | Every shuffled card names a stanza with lines, one of its logical lines, and a pass between 1 and its logical count. |
| Decks.DeckManager.constructor | poetry_to_anki_refactored.py:419-421 | A new manager keeps the configuration and starts with no decks. |
| Decks.DeckManager.CreateDeckName | poetry_to_anki_refactored.py:423-431 | The configured name when individual decks are off. Otherwise no name exactly when the title has no count (the `KeyError`). |
| Decks.DeckNameShape | poetry_to_anki_refactored.py:428-431 | With individual decks the name is `deck::title`, followed by ` (author)` exactly when the title's count exceeds 1. |
| Decks.SharedTitleSeparated | poetry_to_anki_refactored.py:428-429 | Poems that share a title but have different authors get different decks. |
| Decks.DeckManager.GetOrCreateDeck | poetry_to_anki_refactored.py:433-439 | The registry gains the name's deck when it is missing and is otherwise unchanged. The result is the deck registered under the name, and the registry invariant holds. |
| Decks.WithDeckSpec | poetry_to_anki_refactored.py:433-439 | Idempotent. It adds exactly the requested name and keeps every existing deck. The new deck has the name's digest id. |
| Decks.DeckIdBound | poetry_to_anki_refactored.py:437 | A deck id read from eight hexadecimal digits is below 2^32. |
| Legacy.PoemRoundTrip | poetry_to_anki.py:55-59 | Blocks without padding or blank lines, joined by blank lines, parse back to their lines. |
| Legacy.ParsePoemNonEmpty | poetry_to_anki.py:55-59 | No stanza is empty and no line holds a line break. |
| Legacy.ParsePoemSample | test_poetry_to_anki.py:8-20 | The first test's text parses to its three stanzas. |
| Legacy.ClozeStanza | poetry_to_anki.py:62-67 | The line at the index, Python's negative indices included, is marked. The lines are joined with `<br>`. |
| Legacy.ClozeStanzaRoundTrip | poetry_to_anki.py:62-67 | Splitting at `<br>` gives back every other line unchanged and the hidden line as a marker that unescapes to it. |
| Legacy.ClozeStanzaSample | test_poetry_to_anki.py:25-28 | The second test: the middle of three lines becomes `First line<br>{{c1::Second line}}<br>Third line`. |
| Legacy.BuildNotes | poetry_to_anki.py:70-89 | The notes are those of every line of every parsed stanza, in order. |
| Legacy.NotesFor | poetry_to_anki.py:73-89 | The two nested loops append one note per line: cloze text, `s.l` label, title, author and two tags. |
| Legacy.NotesCount | poetry_to_anki.py:75-88 | There is one note per line of the poem. |
| Legacy.NotePosition | poetry_to_anki.py:75-88 | The note of line `l` of stanza `s` sits at its running position and hides that line. |
| Legacy.NoteOrigin | poetry_to_anki.py:75-88 | Every note is the note of some line. |
| Legacy.NotesOrdered | poetry_to_anki.py:75-88 | Notes follow stanza order, then line order. |
| Legacy.NoteLabel | poetry_to_anki.py:79 | Every note's label is `stanza.line` of its own line, counted from 1. |
| Legacy.NoteLabelsDistinct | poetry_to_anki.py:79 | No two notes of a poem share a label. |
| Legacy.LineNoInjective | poetry_to_anki.py:79 | Different positions give different `s.l` labels. |
| Legacy.FirstNote | poetry_to_anki.py:75-88 | The first note hides the first line of the first stanza. |
| Legacy.BuildNotesSample | test_poetry_to_anki.py:39-53 | The third test: 4 notes; the first holds `{{c1::Line 1}}`, is labelled `1.1`, has title and author, and is tagged `title:test-poem` and `author:test-author`. |
| AddPoem.ValidateYear | add_new_poem.py:38-50 | A result is the parsed year and lies in 1000..2100. A parsed year in that range is returned. |
| AddPoem.YearsAccepted | add_new_poem.py:38-50 | A year written in decimal is accepted exactly when it lies in 1000..2100. |
| AddPoem.YearsRejected | add_new_poem.py:38-42 | A missing or empty answer, or one `int` rejects, gives nothing. |
| AddPoem.ParseIntRoundTrip | add_new_poem.py:42 | `int(str(i)) == i` for every integer. |
| AddPoem.NonNumericRejected | add_new_poem.py:42 | A character other than whitespace, digit, sign or `_` makes `int` fail. |
| AddPoem.DoubleUnderscore | add_new_poem.py:42 | A doubled underscore makes `int` fail. |
| AddPoem.TrailingUnderscore | add_new_poem.py:42 | A trailing underscore makes `int` fail. |
| AddPoem.ValidateUrl | add_new_poem.py:55-62 | A result exists exactly when the answer starts with `http://` or `https://`, and it is the answer itself. |
| AddPoem.ValidateUrlIdempotent | add_new_poem.py:55-62 | Validating a validated URL changes nothing. |
| AddPoem.CreateFilename | add_new_poem.py:68-75 | The file name ends in `.md`. |
| AddPoem.FilenameRoundTrip | add_new_poem.py:68-75 | The name splits back into the title slug and, exactly when that slug is short or generic, the author slug. |
| AddPoem.FilenameLength | add_new_poem.py:68-75 | With slugs cut to their maximum lengths, a name has at most 53 characters. |
| AddPoem.GenericTitlesShort | add_new_poem.py:71 | The generic-title test never changes the outcome: every generic title is shorter than 10 characters. |
| Text.UnescapeEscape | poetry_to_anki_refactored.py:236 | `html.unescape(html.escape(s)) == s`. |
| Text.HtmlEscape | poetry_to_anki_refactored.py:236 | Escaped text holds no `<`, `>`, `"` or `'`, and no line break the input lacks. |
| Text.SplitOnJoin | poetry_to_anki_refactored.py:219 | `sep.join(parts).split(sep) == parts` when no part contains the separator (for `<br>`). |
| Text.WordsOfStrip | poetry_to_anki_refactored.py:161-168 | `s.strip().split() == s.split()`. |
| Text.NatToStringValue | poetry_to_anki.py:79 | `str(n)` is all digits and reads back as `n`. |

## Left out

- Card model, CSS, card templates, and the `genanki` package and deck writing: only note fields and tags are modelled.
- `AnkiConnector.send_notes` (HTTP), `FileHandler`, the argument parser, `main`, and `PoetryToAnkiProcessor`: I/O and orchestration.
- `add_new_poem.py`'s prompts, printed messages, file writing and editor launch.
- `NoteBuilder.build_notes`: the wiring of frontmatter, citation and stanza parsing into the note builders. Each step is modelled separately.
- `DeckManager.get_all_decks` (a list of the registry's values).
- `yaml.safe_load`, `slugify` and MD5 are parameters. Their own behaviour is not modelled.
- Parsing.Value: strings, integers, booleans and `null` are spelled out. Any other YAML value (a list, a float, a date, a nested mapping) is `VOther`, carrying the text `str()` gives it and its truthiness as the decoder supplies them; the model does not compute that text itself.
- `random.choice` is modelled as `rng(k)` for the `k`-th draw, reduced to an index.
- Python's `int()` accepts non-ASCII Unicode digits. The model accepts ASCII digits only.
- Dictionary iteration order in `create_cloze_stanza`: the target slots form a set. They are overwritten independently, so order does not change the result.
- Cloze.CreateClozeStanza: `line_groups` keys are natural numbers. The source's `Dict[int, int]` could hold a negative key, which `idx < len(safe)` lets through and Python would read from the end of the list; the wrapper never produces one, so no caller in the model does either.
- Notes.Pick: total, returning 0 for a stanza without line groups. That stanza is never drawn from.
- Notes.AppendPass: takes a ghost `make` parameter, the note constructor as a function, so that the loop's proof does not unfold note construction.
- Notes.BuildShuffledNotes: the total number of notes is not stated as one sum. It follows from Notes.ShuffledStanzaPasses per stanza.
- Legacy.ClozeStanza: requires an index in range. Python raises `IndexError` otherwise, and `build_notes` only passes in-range indices.
- Legacy.NotesFor: holds the two loops of `build_notes`, which calls it on the parsed stanzas.
- Legacy.BuildNotesSample: takes the two slug values the test relies on as preconditions.
- AddPoem.FilenameRoundTrip: assumes slugs contain no `_`. `slugify` separates words with `-`.

## Findings

| source | as written | input that shows it | evidently intended | confidence | as-written member | corrected member |
|---|---|---|---|---|---|---|
| poetry_to_anki_refactored.py:121-122 | `parse_metadata` returns whatever `yaml.safe_load` decodes. For an empty block that is `None`, and `build_notes` then calls `metadata_dict.get`, which fails. | `"---\n---\nBody"`, since `yaml.safe_load("")` is `None` | the metadata is a dictionary; an empty or non-mapping block gives `{}` | not executed | Parsing.EmptyFrontmatter | Parsing.ParseMetadata |
