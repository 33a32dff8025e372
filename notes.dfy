/** `NoteBuilder`: one card per (stanza, logical line), either stanza by stanza in line
    order, or in shuffled passes where pass `p` draws one line from every stanza that has
    more than `p` logical lines. Only the note fields and tags are modelled; the card model,
    the `genanki.Note` object and the random generator are outside it (the generator is the
    parameter `rng`, whose `k`-th value decides the `k`-th draw). */
module Notes {
  import opened Text
  import opened Wrapping
  import opened Parsing
  import opened Cloze

  /** The five fields of a cloze note (Text, LineInfo, Title, Author, Metadata) and its tags. */
  datatype Note = Note(text: string, lineInfo: string, title: string, author: string, metadata: string, tags: seq<string>)

  // ---------------------------------------------------------------- sorted(set(values))

  lemma {:induction false} LeastWitness(s: set<nat>) returns (m: nat)
    requires s != {}
    ensures m in s && forall x :: x in s ==> m <= x
    decreases |s|
  {
    var y :| y in s;
    if s - {y} == {} {
      m := y;
      forall x | x in s ensures m <= x {
        assert x !in s - {y};
      }
    } else {
      var m' := LeastWitness(s - {y});
      m := if y < m' then y else m';
      forall x | x in s ensures m <= x {
        if x != y {
          assert x in s - {y};
        }
      }
    }
  }

  lemma LeastExists(s: set<nat>)
    requires s != {}
    ensures exists m :: m in s && forall x :: x in s ==> m <= x
  {
    var m := LeastWitness(s);
  }

  /** `min(s)`. */
  function Least(s: set<nat>): (m: nat)
    requires s != {}
    ensures m in s && forall x :: x in s ==> m <= x
  {
    LeastExists(s);
    var m :| m in s && forall x :: x in s ==> m <= x; m
  }

  /** `sorted(s)` for a set of naturals. */
  function Ascending(s: set<nat>): (r: seq<nat>)
    ensures |r| == |s|
    decreases |s|
  {
    if s == {} then [] else var m := Least(s); [m] + Ascending(s - {m})
  }

  /** `sorted(s)` holds exactly the elements of `s`, in strictly increasing order. */
  lemma {:induction false} AscendingSpec(s: set<nat>)
    ensures var r := Ascending(s);
      && (forall x :: x in r <==> x in s)
      && (forall i, j :: 0 <= i < j < |r| ==> r[i] < r[j])
    decreases |s|
  {
    if s != {} {
      var m := Least(s);
      AscendingSpec(s - {m});
      AscendingStep(s, m, Ascending(s - {m}));
    }
  }

  /** Putting the least element in front of the sorted rest gives a sorted sequence of
      the whole set. */
  lemma AscendingStep(s: set<nat>, m: nat, rest: seq<nat>)
    requires m in s && forall x :: x in s ==> m <= x
    requires forall x :: x in rest <==> x in s - {m}
    requires forall i, j :: 0 <= i < j < |rest| ==> rest[i] < rest[j]
    ensures forall x :: x in [m] + rest <==> x in s
    ensures forall i, j :: 0 <= i < j < |[m] + rest| ==> ([m] + rest)[i] < ([m] + rest)[j]
  {
    var r := [m] + rest;
    forall i, j | 0 <= i < j < |r| ensures r[i] < r[j] {
      assert r[j] == rest[j - 1] && rest[j - 1] in rest;
      if i > 0 {
        assert r[i] == rest[i - 1];
      }
    }
  }

  lemma {:induction false} GreatestWitness(s: set<nat>) returns (m: nat)
    requires s != {}
    ensures m in s && forall x :: x in s ==> x <= m
    decreases |s|
  {
    var y :| y in s;
    if s - {y} == {} {
      m := y;
      forall x | x in s ensures x <= m {
        assert x !in s - {y};
      }
    } else {
      var m' := GreatestWitness(s - {y});
      m := if y > m' then y else m';
      forall x | x in s ensures x <= m {
        if x != y {
          assert x in s - {y};
        }
      }
    }
  }

  lemma GreatestExists(s: set<nat>)
    requires s != {}
    ensures exists m :: m in s && forall x :: x in s ==> x <= m
  {
    var m := GreatestWitness(s);
  }

  /** `max(s)`. */
  function Greatest(s: set<nat>): (m: nat)
    requires s != {}
    ensures m in s && forall x :: x in s ==> x <= m
  {
    GreatestExists(s);
    var m :| m in s && forall x :: x in s ==> x <= m; m
  }

  /** The sorted distinct logical lines of a stanza. */
  function LogicalLines(st: Stanza): seq<nat>
  {
    Ascending(st.lineGroups.Values)
  }

  // ---------------------------------------------------------------- _create_note

  /** `f'Stanza {stanza_idx + 1}, Line {logical_line_idx + 1}'`. */
  function LineInfo(stanzaIdx: nat, logicalLineIdx: nat): string
  {
    "Stanza " + NatToString(stanzaIdx + 1) + ", Line " + NatToString(logicalLineIdx + 1)
  }

  /** The title and author slugs, then `pass:n` when a non-zero pass number is given. */
  function Tags(title: string, poet: string, passNum: Option<nat>, slug: string -> string): seq<string>
  {
    ["title:" + slug(title), "author:" + slug(poet)]
      + (if passNum.Some? && passNum.value != 0 then ["pass:" + NatToString(passNum.value)] else [])
  }

  function NoteOf(stanza: Stanza, stanzaIdx: nat, logicalLineIdx: nat, title: string, poet: string,
                  metadataDisplay: string, passNum: Option<nat>, slug: string -> string): Note
  {
    var info := LineInfo(stanzaIdx, logicalLineIdx);
    Note(Pre(MarkedLines(stanza.lines, Targets(stanza.lineGroups, logicalLineIdx))), info, title, poet,
         info + "<br>" + metadataDisplay, Tags(title, poet, passNum, slug))
  }

  /** `NoteBuilder._create_note`. */
  method CreateNote(stanza: Stanza, stanzaIdx: nat, logicalLineIdx: nat, title: string, poet: string,
                    metadataDisplay: string, passNum: Option<nat>, slug: string -> string) returns (note: Note)
    ensures note == NoteOf(stanza, stanzaIdx, logicalLineIdx, title, poet, metadataDisplay, passNum, slug)
  {
    var lineInfo := "Stanza " + NatToString(stanzaIdx + 1) + ", Line " + NatToString(logicalLineIdx + 1);
    var tags := ["title:" + slug(title), "author:" + slug(poet)];
    if passNum.Some? && passNum.value != 0 {
      tags := tags + ["pass:" + NatToString(passNum.value)];
    }
    var text := CreateClozeStanza(stanza.lines, logicalLineIdx, stanza.lineGroups);
    note := Note(text, lineInfo, title, poet, lineInfo + "<br>" + metadataDisplay, tags);
  }

  /** Different (stanza, line) positions get different line labels. */
  lemma LineInfoInjective(s1: nat, l1: nat, s2: nat, l2: nat)
    requires LineInfo(s1, l1) == LineInfo(s2, l2)
    ensures s1 == s2 && l1 == l2
  {
    DigitFieldsUnique("Stanza ", ", Line ", NatToString(s1 + 1), NatToString(l1 + 1), NatToString(s2 + 1), NatToString(l2 + 1));
    NatToStringInjective(s1 + 1, s2 + 1);
    NatToStringInjective(l1 + 1, l2 + 1);
  }

  /** A note carries the title and author given, a metadata field that starts with its
      line label and a `<br>`, the title and author tags, and a third tag `pass:n` exactly
      when a non-zero pass `n` is given, whose digits read back as `n`. */
  lemma NoteFields(stanza: Stanza, stanzaIdx: nat, logicalLineIdx: nat, title: string, poet: string,
                   metadataDisplay: string, passNum: Option<nat>, slug: string -> string)
    ensures var note := NoteOf(stanza, stanzaIdx, logicalLineIdx, title, poet, metadataDisplay, passNum, slug);
      && note.title == title && note.author == poet
      && StartsWith(note.metadata, note.lineInfo + "<br>")
      && note.metadata[|note.lineInfo| + 4..] == metadataDisplay
      && |note.tags| >= 2 && note.tags[0] == "title:" + slug(title) && note.tags[1] == "author:" + slug(poet)
      && (|note.tags| == 3 <==> passNum.Some? && passNum.value != 0)
      && |note.tags| <= 3
      && (|note.tags| == 3 ==>
            StartsWith(note.tags[2], "pass:") && AllDigits(note.tags[2][5..])
            && DigitsValue(note.tags[2][5..]) == passNum.value)
  {
    var note := NoteOf(stanza, stanzaIdx, logicalLineIdx, title, poet, metadataDisplay, passNum, slug);
    assert note.metadata[..|note.lineInfo| + 4] == note.lineInfo + "<br>";
    if passNum.Some? && passNum.value != 0 {
      NatToStringValue(passNum.value);
      assert note.tags[2][5..] == NatToString(passNum.value);
    }
  }

  // ---------------------------------------------------------------- cards

  /** One note to create: the stanza (and its index), the logical line to hide and the
      pass number, if any. */
  datatype Card = Card(stanzaIdx: nat, stanza: Stanza, lineIdx: nat, pass: Option<nat>)

  /** The note a card makes. */
  function CardNote(c: Card, title: string, poet: string, metadataDisplay: string, slug: string -> string): Note
  {
    NoteOf(c.stanza, c.stanzaIdx, c.lineIdx, title, poet, metadataDisplay, c.pass, slug)
  }

  /** The notes of a sequence of cards, in order. */
  function CardNotes(cards: seq<Card>, title: string, poet: string, metadataDisplay: string,
                     slug: string -> string): seq<Note>
  {
    seq(|cards|, i requires 0 <= i < |cards| => CardNote(cards[i], title, poet, metadataDisplay, slug))
  }

  lemma AppendCard(cards: seq<Card>, c: Card, title: string, poet: string, metadataDisplay: string,
                   slug: string -> string)
    ensures CardNotes(cards + [c], title, poet, metadataDisplay, slug)
         == CardNotes(cards, title, poet, metadataDisplay, slug) + [CardNote(c, title, poet, metadataDisplay, slug)]
  {
  }

  // ---------------------------------------------------------------- _build_sequential_notes

  /** The cards of one stanza, one per logical line in ascending order. */
  function StanzaCards(st: Stanza, stanzaIdx: nat): seq<Card>
  {
    if |st.lineGroups| > 0 then
      var logical := LogicalLines(st);
      seq(|logical|, j requires 0 <= j < |logical| => Card(stanzaIdx, st, logical[j], None))
    else []
  }

  /** The cards of every stanza, stanza by stanza. */
  function SequentialCards(stanzas: seq<Stanza>): seq<Card>
  {
    if stanzas == [] then []
    else SequentialCards(stanzas[..|stanzas| - 1]) + StanzaCards(stanzas[|stanzas| - 1], |stanzas| - 1)
  }

  /** `NoteBuilder._build_sequential_notes`. */
  method BuildSequentialNotes(stanzas: seq<Stanza>, title: string, poet: string, metadataDisplay: string,
                              slug: string -> string) returns (notes: seq<Note>)
    ensures notes == CardNotes(SequentialCards(stanzas), title, poet, metadataDisplay, slug)
  {
    notes := [];
    for s := 0 to |stanzas|
      invariant notes == CardNotes(SequentialCards(stanzas[..s]), title, poet, metadataDisplay, slug)
    {
      assert stanzas[..s + 1][..s] == stanzas[..s];
      if |stanzas[s].lineGroups| > 0 {
        notes := AppendStanzaNotes(stanzas[s], s, notes, SequentialCards(stanzas[..s]), title, poet, metadataDisplay, slug);
      } else {
        assert SequentialCards(stanzas[..s]) + StanzaCards(stanzas[s], s) == SequentialCards(stanzas[..s]);
      }
    }
    assert stanzas[..|stanzas|] == stanzas;
  }

  /** The inner loop of `_build_sequential_notes`: one note per logical line of the
      stanza, in ascending order. */
  method AppendStanzaNotes(stanza: Stanza, s: nat, notes0: seq<Note>, ghost done: seq<Card>, title: string,
                           poet: string, metadataDisplay: string, slug: string -> string) returns (notes: seq<Note>)
    requires |stanza.lineGroups| > 0
    requires notes0 == CardNotes(done, title, poet, metadataDisplay, slug)
    ensures notes == CardNotes(done + StanzaCards(stanza, s), title, poet, metadataDisplay, slug)
  {
    ghost var cards := StanzaCards(stanza, s);
    var logicalLines := LogicalLines(stanza);
    notes := notes0;
    assert done + cards[..0] == done;
    for j := 0 to |logicalLines|
      invariant notes == CardNotes(done + cards[..j], title, poet, metadataDisplay, slug)
    {
      var note := CreateNote(stanza, s, logicalLines[j], title, poet, metadataDisplay, None, slug);
      assert cards[j] == Card(s, stanza, logicalLines[j], None);
      PrefixSnoc(done, cards, j);
      AppendCard(done + cards[..j], cards[j], title, poet, metadataDisplay, slug);
      notes := notes + [note];
    }
    assert cards[..|logicalLines|] == cards;
  }

  lemma PrefixSnoc<T>(done: seq<T>, xs: seq<T>, j: nat)
    requires j < |xs|
    ensures done + xs[..j + 1] == (done + xs[..j]) + [xs[j]]
  {
    assert xs[..j + 1] == xs[..j] + [xs[j]];
  }

  // ---------------------------------------------------------------- _build_shuffled_notes

  lemma ValuesNonEmpty(m: map<nat, nat>)
    requires |m| > 0
    ensures m.Values != {}
  {
    var k :| k in m;
    assert m[k] in m.Values;
  }

  /** `max(stanza.line_groups.values()) + 1` for a stanza with line groups, else 0. */
  function LogicalCount(st: Stanza): nat
  {
    if |st.lineGroups| > 0 then ValuesNonEmpty(st.lineGroups); Greatest(st.lineGroups.Values) + 1 else 0
  }

  /** `max_logical_lines`: the largest `LogicalCount` of any stanza, 0 for no stanzas. */
  function PassCount(stanzas: seq<Stanza>): nat
  {
    if stanzas == [] then 0
    else
      var prev, c := PassCount(stanzas[..|stanzas| - 1]), LogicalCount(stanzas[|stanzas| - 1]);
      if c > prev then c else prev
  }

  /** The first loop of `_build_shuffled_notes`. */
  method MaxLogicalLines(stanzas: seq<Stanza>) returns (maxLogicalLines: nat)
    ensures maxLogicalLines == PassCount(stanzas)
  {
    maxLogicalLines := 0;
    for i := 0 to |stanzas|
      invariant maxLogicalLines == PassCount(stanzas[..i])
    {
      assert stanzas[..i + 1][..i] == stanzas[..i];
      var stanza := stanzas[i];
      if |stanza.lineGroups| > 0 {
        ValuesNonEmpty(stanza.lineGroups);
        var logicalLineCount := Greatest(stanza.lineGroups.Values) + 1;
        maxLogicalLines := if logicalLineCount > maxLogicalLines then logicalLineCount else maxLogicalLines;
      }
    }
    assert stanzas[..|stanzas|] == stanzas;
  }

  /** Stanza `st` takes part in pass `p` (0-based): it has lines, line groups and more
      than `p` logical lines. */
  predicate Draws(st: Stanza, p: nat)
  {
    |st.lines| > 0 && |st.lineGroups| > 0 && p < |st.lineGroups.Values|
  }

  /** A draw: in pass `pass` (counted from 1, as in the `pass:` tag), one line of stanza
      `stanzaIdx` is chosen. */
  datatype Turn = Turn(pass: nat, stanzaIdx: nat, stanza: Stanza)

  /** The draw stanza `st` (at index `s`) adds to pass `p`, if it takes part. */
  function Added(st: Stanza, p: nat, s: nat): seq<Turn>
  {
    if Draws(st, p) then [Turn(p + 1, s, st)] else []
  }

  /** The draws of pass `p` among the first `n` stanzas, in stanza order. */
  function PassTurns(stanzas: seq<Stanza>, p: nat, n: nat): seq<Turn>
    requires n <= |stanzas|
  {
    if n == 0 then []
    else PassTurns(stanzas, p, n - 1) + Added(stanzas[n - 1], p, n - 1)
  }

  /** The draws of the first `passes` passes, pass by pass. */
  function Turns(stanzas: seq<Stanza>, passes: nat): seq<Turn>
  {
    if passes == 0 then [] else Turns(stanzas, passes - 1) + PassTurns(stanzas, passes - 1, |stanzas|)
  }

  function ShuffledTurns(stanzas: seq<Stanza>): seq<Turn>
  {
    Turns(stanzas, PassCount(stanzas))
  }

  /** `random.choice(logical_lines)` where the generator's draw is `r`: one of the
      stanza's logical lines (a stanza without line groups never draws). */
  function Pick(st: Stanza, r: nat): (v: nat)
    ensures st.lineGroups.Values != {} ==> v in st.lineGroups.Values
  {
    var logical := LogicalLines(st);
    AscendingSpec(st.lineGroups.Values);
    if |logical| == 0 then 0
    else
      assert logical[r % |logical|] in logical;
      logical[r % |logical|]
  }

  /** The cards of a sequence of draws: the `k`-th draw picks with the generator's `k`-th
      value and is tagged with its 1-based pass. */
  function DrawCards(turns: seq<Turn>, rng: nat -> nat): seq<Card>
  {
    seq(|turns|, k requires 0 <= k < |turns| =>
      Card(turns[k].stanzaIdx, turns[k].stanza, Pick(turns[k].stanza, rng(k)), Some(turns[k].pass)))
  }

  lemma AppendDraw(turns: seq<Turn>, t: Turn, rng: nat -> nat)
    ensures DrawCards(turns + [t], rng)
         == DrawCards(turns, rng) + [Card(t.stanzaIdx, t.stanza, Pick(t.stanza, rng(|turns|)), Some(t.pass))]
  {
  }

  /** `NoteBuilder._build_shuffled_notes`, with `rng(k)` standing for the random draw made
      for the `k`-th note. */
  method BuildShuffledNotes(stanzas: seq<Stanza>, title: string, poet: string, metadataDisplay: string,
                            slug: string -> string, rng: nat -> nat) returns (notes: seq<Note>)
    ensures notes == CardNotes(DrawCards(ShuffledTurns(stanzas), rng), title, poet, metadataDisplay, slug)
  {
    ghost var make := Maker(title, poet, metadataDisplay, slug);
    var maxLogicalLines := MaxLogicalLines(stanzas);
    notes := [];
    for passNum := 0 to maxLogicalLines
      invariant Built(notes, Turns(stanzas, passNum), make, rng)
    {
      notes := AppendPass(stanzas, passNum, notes, Turns(stanzas, passNum), make, title, poet, metadataDisplay, slug, rng);
    }
    MakerNotes(DrawCards(ShuffledTurns(stanzas), rng), title, poet, metadataDisplay, slug);
  }

  /** `_create_note` as a function of the card, for the given poem. */
  function Maker(title: string, poet: string, metadataDisplay: string, slug: string -> string): Card -> Note
  {
    (c: Card) => CardNote(c, title, poet, metadataDisplay, slug)
  }

  lemma MakerNotes(cards: seq<Card>, title: string, poet: string, metadataDisplay: string, slug: string -> string)
    ensures MapNotes(Maker(title, poet, metadataDisplay, slug), cards) == CardNotes(cards, title, poet, metadataDisplay, slug)
  {
  }

  /** The notes `make` gives for a sequence of cards. */
  function MapNotes(make: Card -> Note, cards: seq<Card>): seq<Note>
  {
    seq(|cards|, i requires 0 <= i < |cards| => make(cards[i]))
  }

  /** `notes` are the notes of the draws `turns`. */
  ghost predicate Built(notes: seq<Note>, turns: seq<Turn>, make: Card -> Note, rng: nat -> nat)
  {
    notes == MapNotes(make, DrawCards(turns, rng))
  }

  /** One pass of `_build_shuffled_notes`: a draw from every stanza that has more than
      `passNum` logical lines, in stanza order. */
  method AppendPass(stanzas: seq<Stanza>, passNum: nat, notes0: seq<Note>, ghost done: seq<Turn>,
                    ghost make: Card -> Note, title: string, poet: string, metadataDisplay: string,
                    slug: string -> string, rng: nat -> nat)
    returns (notes: seq<Note>)
    requires make == Maker(title, poet, metadataDisplay, slug)
    requires Built(notes0, done, make, rng)
    ensures Built(notes, done + PassTurns(stanzas, passNum, |stanzas|), make, rng)
  {
    notes := notes0;
    assert done + PassTurns(stanzas, passNum, 0) == done;
    for s := 0 to |stanzas|
      invariant Built(notes, done + PassTurns(stanzas, passNum, s), make, rng)
    {
      notes := DrawFromStanza(stanzas, s, passNum, notes, done, make, title, poet, metadataDisplay, slug, rng);
    }
  }

  lemma TurnsStep(stanzas: seq<Stanza>, p: nat, s: nat, done: seq<Turn>)
    requires s < |stanzas|
    ensures done + PassTurns(stanzas, p, s + 1) == (done + PassTurns(stanzas, p, s)) + Added(stanzas[s], p, s)
  {
    AppendAssoc(done, PassTurns(stanzas, p, s), Added(stanzas[s], p, s));
  }

  /** The body of the inner loop of `_build_shuffled_notes`: stanza `s` adds a note to
      pass `passNum` exactly when it takes part in it. */
  method DrawFromStanza(stanzas: seq<Stanza>, s: nat, passNum: nat, notes0: seq<Note>, ghost done: seq<Turn>,
                        ghost make: Card -> Note, title: string, poet: string, metadataDisplay: string,
                        slug: string -> string, rng: nat -> nat)
    returns (notes: seq<Note>)
    requires s < |stanzas|
    requires make == Maker(title, poet, metadataDisplay, slug)
    requires Built(notes0, done + PassTurns(stanzas, passNum, s), make, rng)
    ensures Built(notes, done + PassTurns(stanzas, passNum, s + 1), make, rng)
  {
    ghost var before := done + PassTurns(stanzas, passNum, s);
    TurnsStep(stanzas, passNum, s, done);
    notes := notes0;
    var stanza := stanzas[s];
    if |stanza.lines| > 0 && |stanza.lineGroups| > 0 {
      var logicalLines := LogicalLines(stanza);
      if passNum < |logicalLines| {
        var logicalLineIdx := logicalLines[rng(|notes|) % |logicalLines|];
        var note := CreateNote(stanza, s, logicalLineIdx, title, poet, metadataDisplay, Some(passNum + 1), slug);
        assert |notes| == |before| && logicalLineIdx == Pick(stanza, rng(|before|));
        DrawStep(before, stanza, s, passNum, notes, note, make, title, poet, metadataDisplay, slug, rng);
        notes := notes + [note];
        return;
      }
    }
    assert Added(stanza, passNum, s) == [] && before + [] == before;
  }

  /** Appending the note of a stanza that takes part in the pass extends the notes of the
      draws by that stanza's draw. */
  lemma DrawStep(before: seq<Turn>, stanza: Stanza, s: nat, passNum: nat, notes: seq<Note>, note: Note,
                 make: Card -> Note, title: string, poet: string, metadataDisplay: string,
                 slug: string -> string, rng: nat -> nat)
    requires Draws(stanza, passNum)
    requires make == Maker(title, poet, metadataDisplay, slug)
    requires Built(notes, before, make, rng)
    requires note == CardNote(Card(s, stanza, Pick(stanza, rng(|before|)), Some(passNum + 1)), title, poet, metadataDisplay, slug)
    ensures Built(notes + [note], before + Added(stanza, passNum, s), make, rng)
  {
    var t := Turn(passNum + 1, s, stanza);
    var c := Card(s, stanza, Pick(stanza, rng(|before|)), Some(passNum + 1));
    assert Added(stanza, passNum, s) == [t];
    AppendDraw(before, t, rng);
    MapAppend(make, DrawCards(before, rng), c);
  }

  lemma MapAppend(make: Card -> Note, cards: seq<Card>, c: Card)
    ensures MapNotes(make, cards + [c]) == MapNotes(make, cards) + [make(c)]
  {
  }

  // ---------------------------------------------------------------- scheduling lemmas

  lemma ValuesEmpty(m: map<nat, nat>)
    requires |m| == 0
    ensures m.Values == {}
  {
    assert m == map[];
  }

  /** The number of distinct logical lines over all stanzas. */
  function DistinctTotal(stanzas: seq<Stanza>): nat
  {
    if stanzas == [] then 0
    else DistinctTotal(stanzas[..|stanzas| - 1]) + |stanzas[|stanzas| - 1].lineGroups.Values|
  }

  /** Card `a` comes before card `b`: an earlier stanza, or the same stanza and an
      earlier logical line. */
  predicate LineOrder(a: Card, b: Card)
  {
    a.stanzaIdx < b.stanzaIdx || (a.stanzaIdx == b.stanzaIdx && a.lineIdx < b.lineIdx)
  }

  /** A stanza gives one card per distinct logical line. */
  lemma StanzaCardsCount(st: Stanza, s: nat)
    ensures |StanzaCards(st, s)| == |st.lineGroups.Values|
  {
    if |st.lineGroups| == 0 {
      ValuesEmpty(st.lineGroups);
    }
  }

  /** Card `c` hides one of the logical lines of stanza `s` of `stanzas`, with no pass. */
  predicate SequentialCard(stanzas: seq<Stanza>, c: Card)
  {
    c.stanzaIdx < |stanzas| && c.stanza == stanzas[c.stanzaIdx] && c.pass == None
    && c.lineIdx in c.stanza.lineGroups.Values
  }

  lemma StanzaCardsSound(stanzas: seq<Stanza>, s: nat)
    requires s < |stanzas|
    ensures forall c :: c in StanzaCards(stanzas[s], s) ==> c.stanzaIdx == s && SequentialCard(stanzas, c)
  {
    AscendingSpec(stanzas[s].lineGroups.Values);
  }

  lemma StanzaCardsComplete(st: Stanza, s: nat, v: nat)
    requires v in st.lineGroups.Values
    ensures Card(s, st, v, None) in StanzaCards(st, s)
  {
    var cards := StanzaCards(st, s);
    if |st.lineGroups| == 0 {
      ValuesEmpty(st.lineGroups);
    } else {
      var logical := LogicalLines(st);
      AscendingSpec(st.lineGroups.Values);
      var k :| 0 <= k < |logical| && logical[k] == v;
      assert cards[k] == Card(s, st, v, None);
    }
  }

  lemma StanzaCardsOrdered(st: Stanza, s: nat)
    ensures forall i, j :: 0 <= i < j < |StanzaCards(st, s)| ==>
              StanzaCards(st, s)[i].stanzaIdx == s && LineOrder(StanzaCards(st, s)[i], StanzaCards(st, s)[j])
  {
    AscendingSpec(st.lineGroups.Values);
  }

  /** A card that is valid for a prefix of the stanzas is valid for the whole poem. */
  lemma SequentialCardWiden(stanzas: seq<Stanza>, n: nat, c: Card)
    requires n <= |stanzas| && SequentialCard(stanzas[..n], c)
    ensures SequentialCard(stanzas, c) && c.stanzaIdx < n
  {
    assert stanzas[..n][c.stanzaIdx] == stanzas[c.stanzaIdx];
  }

  /** Sequential mode gives as many cards as there are distinct logical lines over all
      stanzas. */
  lemma {:induction false} SequentialCount(stanzas: seq<Stanza>)
    ensures |SequentialCards(stanzas)| == DistinctTotal(stanzas)
  {
    if stanzas != [] {
      var n := |stanzas| - 1;
      SequentialCount(stanzas[..n]);
      StanzaCardsCount(stanzas[n], n);
    }
  }

  /** Every sequential card hides one of its own stanza's logical lines and has no pass. */
  lemma {:induction false} SequentialSound(stanzas: seq<Stanza>)
    ensures forall c :: c in SequentialCards(stanzas) ==> SequentialCard(stanzas, c)
  {
    if stanzas != [] {
      var n := |stanzas| - 1;
      SequentialSound(stanzas[..n]);
      StanzaCardsSound(stanzas, n);
      var prev, last := SequentialCards(stanzas[..n]), StanzaCards(stanzas[n], n);
      assert SequentialCards(stanzas) == prev + last;
      forall c | c in prev + last ensures SequentialCard(stanzas, c) {
        if c in prev {
          SequentialCardWiden(stanzas, n, c);
        }
      }
    }
  }

  /** Every distinct logical line of every stanza gets a sequential card. */
  lemma {:induction false} SequentialComplete(stanzas: seq<Stanza>, s: nat, v: nat)
    requires s < |stanzas| && v in stanzas[s].lineGroups.Values
    ensures Card(s, stanzas[s], v, None) in SequentialCards(stanzas)
  {
    var n := |stanzas| - 1;
    var prev, last := SequentialCards(stanzas[..n]), StanzaCards(stanzas[n], n);
    assert SequentialCards(stanzas) == prev + last;
    if s < n {
      assert stanzas[..n][s] == stanzas[s];
      SequentialComplete(stanzas[..n], s, v);
    } else {
      StanzaCardsComplete(stanzas[n], n, v);
    }
  }

  /** The cards are in strictly increasing (stanza, line) order. */
  predicate InLineOrder(cards: seq<Card>)
  {
    forall i, j :: 0 <= i < j < |cards| ==> LineOrder(cards[i], cards[j])
  }

  /** Cards of earlier stanzas followed by the cards of stanza `n` keep the order. */
  lemma ConcatInLineOrder(prev: seq<Card>, last: seq<Card>, n: nat)
    requires InLineOrder(prev) && InLineOrder(last)
    requires forall c :: c in prev ==> c.stanzaIdx < n
    requires forall c :: c in last ==> c.stanzaIdx == n
    ensures InLineOrder(prev + last)
  {
    var r := prev + last;
    forall i, j | 0 <= i < j < |r| ensures LineOrder(r[i], r[j]) {
      if i < |prev| <= j {
        assert r[i] == prev[i] && r[i] in prev;
        assert r[j] == last[j - |prev|] && r[j] in last;
      } else if j < |prev| {
        assert r[i] == prev[i] && r[j] == prev[j];
      } else {
        assert r[i] == last[i - |prev|] && r[j] == last[j - |prev|];
      }
    }
  }

  /** Sequential cards run stanza by stanza and, within a stanza, in strictly ascending
      line order; so no (stanza, line) pair is repeated. */
  lemma {:induction false} SequentialOrdered(stanzas: seq<Stanza>)
    ensures InLineOrder(SequentialCards(stanzas))
  {
    if stanzas != [] {
      var n := |stanzas| - 1;
      SequentialOrdered(stanzas[..n]);
      SequentialSound(stanzas[..n]);
      StanzaCardsSound(stanzas, n);
      StanzaCardsOrdered(stanzas[n], n);
      ConcatInLineOrder(SequentialCards(stanzas[..n]), StanzaCards(stanzas[n], n), n);
    }
  }

  // ---------------------------------------------------------------- shuffled schedule

  /** A stanza that takes part in pass `p` has a largest logical index of at least `p`. */
  lemma DrawsBound(st: Stanza, p: nat)
    requires Draws(st, p)
    ensures p < LogicalCount(st)
  {
    ValuesNonEmpty(st.lineGroups);
    SizeBelowGreatest(st.lineGroups.Values);
  }

  /** A set of naturals has no more elements than its maximum plus one. */
  lemma SizeBelowGreatest(s: set<nat>)
    requires s != {}
    ensures |s| <= Greatest(s) + 1
  {
    var below := Below(Greatest(s) + 1);
    assert below == s + (below - s);
    assert s * (below - s) == {};
    BelowCard(Greatest(s) + 1);
  }

  /** No stanza needs more passes than `max_logical_lines`. */
  lemma {:induction false} PassCountBound(stanzas: seq<Stanza>, s: nat)
    requires s < |stanzas|
    ensures LogicalCount(stanzas[s]) <= PassCount(stanzas)
    decreases |stanzas|
  {
    var n := |stanzas| - 1;
    if s < n {
      assert stanzas[..n][s] == stanzas[s];
      PassCountBound(stanzas[..n], s);
    }
  }

  /** Turn `t` is a draw the shuffled mode owes: its stanza is the poem's stanza at that
      index and takes part in the turn's pass. */
  predicate ShuffledTurn(stanzas: seq<Stanza>, t: Turn)
  {
    1 <= t.pass && t.stanzaIdx < |stanzas| && t.stanza == stanzas[t.stanzaIdx] && Draws(t.stanza, t.pass - 1)
  }

  lemma {:induction false} PassTurnsSpec(stanzas: seq<Stanza>, p: nat, n: nat, t: Turn)
    requires n <= |stanzas|
    ensures t in PassTurns(stanzas, p, n) <==> t.pass == p + 1 && t.stanzaIdx < n && ShuffledTurn(stanzas, t)
    decreases n
  {
    if n > 0 {
      PassTurnsSpec(stanzas, p, n - 1, t);
    }
  }

  lemma {:induction false} TurnsSpec(stanzas: seq<Stanza>, passes: nat, t: Turn)
    ensures t in Turns(stanzas, passes) <==> t.pass <= passes && ShuffledTurn(stanzas, t)
    decreases passes
  {
    if passes > 0 {
      TurnsSpec(stanzas, passes - 1, t);
      PassTurnsSpec(stanzas, passes - 1, |stanzas|, t);
      ghost var ok := ShuffledTurn(stanzas, t);
      assert ok ==> t.stanzaIdx < |stanzas|;
      MemberConcat(t, Turns(stanzas, passes), Turns(stanzas, passes - 1), PassTurns(stanzas, passes - 1, |stanzas|),
                   t.pass <= passes - 1 && ok, t.pass == passes && t.stanzaIdx < |stanzas| && ok);
    }
  }

  /** Membership in a concatenation, each part's membership given by a condition. */
  lemma MemberConcat<T>(x: T, all: seq<T>, a: seq<T>, b: seq<T>, inA: bool, inB: bool)
    requires all == a + b && (x in a <==> inA) && (x in b <==> inB)
    ensures x in all <==> inA || inB
  {
  }

  /** The shuffled mode draws exactly once from stanza `s` in pass `p + 1` when the stanza
      has lines and more than `p` logical lines, and never otherwise. */
  lemma ShuffledTurnsSpec(stanzas: seq<Stanza>, t: Turn)
    ensures t in ShuffledTurns(stanzas) <==> ShuffledTurn(stanzas, t)
  {
    TurnsSpec(stanzas, PassCount(stanzas), t);
    if ShuffledTurn(stanzas, t) {
      DrawsBound(t.stanza, t.pass - 1);
      PassCountBound(stanzas, t.stanzaIdx);
    }
  }

  /** Turn `a` comes before turn `b`: an earlier pass, or the same pass and an earlier
      stanza. */
  predicate PassOrder(a: Turn, b: Turn)
  {
    a.pass < b.pass || (a.pass == b.pass && a.stanzaIdx < b.stanzaIdx)
  }

  predicate InPassOrder(turns: seq<Turn>)
  {
    forall i, j :: 0 <= i < j < |turns| ==> PassOrder(turns[i], turns[j])
  }

  lemma ConcatInPassOrder(prev: seq<Turn>, last: seq<Turn>)
    requires InPassOrder(prev) && InPassOrder(last)
    requires forall a, b :: a in prev && b in last ==> PassOrder(a, b)
    ensures InPassOrder(prev + last)
  {
    var r := prev + last;
    forall i, j | 0 <= i < j < |r| ensures PassOrder(r[i], r[j]) {
      if i < |prev| <= j {
        assert r[i] == prev[i] && r[i] in prev;
        assert r[j] == last[j - |prev|] && r[j] in last;
      } else if j < |prev| {
        assert r[i] == prev[i] && r[j] == prev[j];
      } else {
        assert r[i] == last[i - |prev|] && r[j] == last[j - |prev|];
      }
    }
  }

  lemma {:induction false} PassTurnsOrdered(stanzas: seq<Stanza>, p: nat, n: nat)
    requires n <= |stanzas|
    ensures InPassOrder(PassTurns(stanzas, p, n))
    decreases n
  {
    if n > 0 {
      var prev, last := PassTurns(stanzas, p, n - 1), Added(stanzas[n - 1], p, n - 1);
      PassTurnsOrdered(stanzas, p, n - 1);
      forall a, b | a in prev && b in last ensures PassOrder(a, b) {
        PassTurnsSpec(stanzas, p, n - 1, a);
      }
      ConcatInPassOrder(prev, last);
    }
  }

  lemma {:induction false} TurnsOrdered(stanzas: seq<Stanza>, passes: nat)
    ensures InPassOrder(Turns(stanzas, passes))
    decreases passes
  {
    if passes > 0 {
      var prev, last := Turns(stanzas, passes - 1), PassTurns(stanzas, passes - 1, |stanzas|);
      TurnsOrdered(stanzas, passes - 1);
      PassTurnsOrdered(stanzas, passes - 1, |stanzas|);
      forall a, b | a in prev && b in last ensures PassOrder(a, b) {
        TurnsSpec(stanzas, passes - 1, a);
        PassTurnsSpec(stanzas, passes - 1, |stanzas|, b);
      }
      ConcatInPassOrder(prev, last);
    }
  }

  /** The shuffled draws run pass by pass and, within a pass, stanza by stanza; so no
      stanza is drawn twice in one pass. */
  lemma ShuffledTurnsOrdered(stanzas: seq<Stanza>)
    ensures InPassOrder(ShuffledTurns(stanzas))
  {
    TurnsOrdered(stanzas, PassCount(stanzas));
  }

  /** The passes in which stanza `s` is drawn are exactly `1 .. k` for a stanza with lines
      and `k` distinct logical lines, and none for a stanza without lines; so it gets `k`
      cards. */
  lemma ShuffledStanzaPasses(stanzas: seq<Stanza>, s: nat)
    requires s < |stanzas|
    ensures var st := stanzas[s];
      var passes := set t | t in ShuffledTurns(stanzas) && t.stanzaIdx == s :: t.pass;
      && passes == (if |st.lines| > 0 && |st.lineGroups| > 0 then Interval(1, |st.lineGroups.Values| + 1) else {})
      && |passes| == (if |st.lines| > 0 then |st.lineGroups.Values| else 0)
  {
    var st := stanzas[s];
    var passes := set t | t in ShuffledTurns(stanzas) && t.stanzaIdx == s :: t.pass;
    var expected := if |st.lines| > 0 && |st.lineGroups| > 0 then Interval(1, |st.lineGroups.Values| + 1) else {};
    IntervalMembers(1, |st.lineGroups.Values| + 1);
    forall q | q in passes ensures q in expected {
      var t :| t in ShuffledTurns(stanzas) && t.stanzaIdx == s && t.pass == q;
      ShuffledTurnsSpec(stanzas, t);
    }
    forall q | q in expected ensures q in passes {
      var t := Turn(q, s, st);
      ShuffledTurnsSpec(stanzas, t);
    }
    if |st.lineGroups| == 0 {
      ValuesEmpty(st.lineGroups);
    }
    IntervalSize(1, |st.lineGroups.Values| + 1);
  }

  /** Card `c` hides one of the logical lines of stanza `c.stanzaIdx`, a stanza with
      lines, and is tagged with a pass between 1 and that stanza's number of logical lines. */
  predicate ShuffledCard(stanzas: seq<Stanza>, c: Card)
  {
    && c.stanzaIdx < |stanzas| && c.stanza == stanzas[c.stanzaIdx] && |c.stanza.lines| > 0
    && c.lineIdx in c.stanza.lineGroups.Values
    && c.pass.Some? && 1 <= c.pass.value <= |c.stanza.lineGroups.Values|
  }

  /** The card of an owed draw is a valid shuffled card. */
  lemma DrawCard(stanzas: seq<Stanza>, t: Turn, r: nat)
    requires ShuffledTurn(stanzas, t)
    ensures ShuffledCard(stanzas, Card(t.stanzaIdx, t.stanza, Pick(t.stanza, r), Some(t.pass)))
  {
    ValuesNonEmpty(t.stanza.lineGroups);
  }

  /** Every shuffled card is a valid shuffled card. */
  lemma ShuffledCards(stanzas: seq<Stanza>, rng: nat -> nat)
    ensures forall c :: c in DrawCards(ShuffledTurns(stanzas), rng) ==> ShuffledCard(stanzas, c)
  {
    var turns := ShuffledTurns(stanzas);
    var cards := DrawCards(turns, rng);
    forall c | c in cards ensures ShuffledCard(stanzas, c) {
      var k :| 0 <= k < |cards| && cards[k] == c;
      ShuffledTurnsSpec(stanzas, turns[k]);
      DrawCard(stanzas, turns[k], rng(k));
    }
  }

  /** On a well-formed stanza, `max(values) + 1` is the number of distinct logical lines,
      so the stanza takes part in exactly the passes below its `LogicalCount`. */
  lemma WellFormedCount(st: Stanza, p: nat)
    requires WellFormed(st)
    ensures LogicalCount(st) == |st.lineGroups.Values| > 0
    ensures Draws(st, p) <==> p < LogicalCount(st)
  {
    assert 0 in st.lineGroups;
    var n :| 0 < n <= |st.lines| && st.lineGroups.Values == Below(n);
    var g := Greatest(Below(n));
    assert n - 1 in Below(n);
    BelowCard(n);
  }
}
