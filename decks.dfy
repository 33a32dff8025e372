/** `DeckManager`: the deck each poem's notes go to, and the registry of decks created so
    far. The MD5 digest is a parameter (`md5Hex`, the lower-case hexadecimal digest of a
    name); the `genanki.Deck` object is reduced to its id and name. */
module Decks {
  import opened Text

  /** The two settings of `Config` that decide deck names. */
  datatype DeckConfig = DeckConfig(deckName: string, individualDecks: bool)

  /** A deck: its numeric id and its name. */
  datatype Deck = Deck(id: nat, name: string)

  predicate IsLowerHex(c: char)
  {
    '0' <= c <= '9' || 'a' <= c <= 'f'
  }

  /** A hexadecimal MD5 digest: 32 lower-case hexadecimal digits. */
  predicate IsHexDigest(s: string)
  {
    |s| == 32 && forall i :: 0 <= i < |s| ==> IsLowerHex(s[i])
  }

  function HexDigitValue(c: char): (v: nat)
    requires IsLowerHex(c)
    ensures v < 16
  {
    if c <= '9' then c as int - '0' as int else c as int - 'a' as int + 10
  }

  /** `int(s, 16)` for a string of lower-case hexadecimal digits. */
  function HexValue(s: string): nat
    requires forall i :: 0 <= i < |s| ==> IsLowerHex(s[i])
  {
    if s == [] then 0 else HexValue(s[..|s| - 1]) * 16 + HexDigitValue(s[|s| - 1])
  }

  /** `int(md5(name).hexdigest()[:8], 16)`. */
  function DeckId(md5Hex: string -> string, name: string): nat
    requires IsHexDigest(md5Hex(name))
  {
    HexValue(md5Hex(name)[..8])
  }

  /** The registry after `get_or_create_deck(name)`: unchanged when the name is known,
      otherwise extended by a new deck with that name and its digest id. */
  function WithDeck(decks: map<string, Deck>, name: string, md5Hex: string -> string): map<string, Deck>
    requires IsHexDigest(md5Hex(name))
  {
    if name in decks then decks else decks[name := Deck(DeckId(md5Hex, name), name)]
  }

  /** Every registered deck is stored under its own name with its digest id. */
  ghost predicate Registered(decks: map<string, Deck>, md5Hex: string -> string)
  {
    forall n :: n in decks ==> IsHexDigest(md5Hex(n)) && decks[n] == Deck(DeckId(md5Hex, n), n)
  }

  class DeckManager {
    const config: DeckConfig
    const md5Hex: string -> string
    /** `self.decks`: deck name to deck. */
    var decks: map<string, Deck>

    ghost predicate Valid()
      reads this
    {
      (forall s :: IsHexDigest(md5Hex(s))) && Registered(decks, md5Hex)
    }

    constructor (config: DeckConfig, md5Hex: string -> string)
      requires forall s :: IsHexDigest(md5Hex(s))
      ensures this.config == config && this.md5Hex == md5Hex && decks == map[]
      ensures Valid()
    {
      this.config := config;
      this.md5Hex := md5Hex;
      decks := map[];
    }

    /** `DeckManager.create_deck_name`: the configured deck name when individual decks are
        off; otherwise a sub-deck named after the title, with the author appended when
        more than one poem has that title. `None` where the title has no count, where
        `title_counts[title]` raises `KeyError`. */
    function CreateDeckName(title: string, author: string, titleCounts: map<string, int>): (r: Option<string>)
      ensures r.None? <==> config.individualDecks && title !in titleCounts
      ensures !config.individualDecks ==> r == Some(config.deckName)
    {
      if !config.individualDecks then Some(config.deckName)
      else if title !in titleCounts then None
      else if titleCounts[title] > 1 then Some(config.deckName + "::" + title + " (" + author + ")")
      else Some(config.deckName + "::" + title)
    }

    /** `DeckManager.get_or_create_deck`. */
    method GetOrCreateDeck(deckName: string) returns (deck: Deck)
      requires Valid()
      modifies this
      ensures decks == WithDeck(old(decks), deckName, md5Hex)
      ensures deck == decks[deckName]
      ensures Valid()
    {
      if deckName !in decks {
        var deckId := HexValue(md5Hex(deckName)[..8]);
        decks := decks[deckName := Deck(deckId, deckName)];
      }
      deck := decks[deckName];
    }
  }

  // ---------------------------------------------------------------- lemmas

  lemma {:induction false} HexValueBound(s: string)
    requires forall i :: 0 <= i < |s| ==> IsLowerHex(s[i])
    ensures HexValue(s) < Pow16(|s|)
  {
    if s != [] {
      HexValueBound(s[..|s| - 1]);
    }
  }

  function Pow16(n: nat): (r: nat)
    ensures r > 0
  {
    if n == 0 then 1 else 16 * Pow16(n - 1)
  }

  /** A deck id fits in 32 bits: it is read from eight hexadecimal digits. */
  lemma DeckIdBound(md5Hex: string -> string, name: string)
    requires IsHexDigest(md5Hex(name))
    ensures DeckId(md5Hex, name) < 0x1_0000_0000
  {
    HexValueBound(md5Hex(name)[..8]);
    assert Pow16(8) == 0x1_0000_0000;
  }

  /** `get_or_create_deck` is idempotent, adds exactly the requested name, never
      changes a deck already registered, and returns the deck registered under the
      name, with the name's digest id. */
  lemma WithDeckSpec(decks: map<string, Deck>, name: string, md5Hex: string -> string)
    requires IsHexDigest(md5Hex(name)) && Registered(decks, md5Hex)
    ensures var after := WithDeck(decks, name, md5Hex);
      && WithDeck(after, name, md5Hex) == after
      && after.Keys == decks.Keys + {name}
      && (forall n :: n in decks ==> after[n] == decks[n])
      && after[name] == Deck(DeckId(md5Hex, name), name)
      && Registered(after, md5Hex)
  {
  }

  /** With individual decks, the deck name is the configured name, `::`, and the title,
      followed by ` (author)` exactly when more than one poem has the title. */
  lemma DeckNameShape(m: DeckManager, title: string, author: string, titleCounts: map<string, int>)
    requires m.config.individualDecks && title in titleCounts
    ensures var name := m.CreateDeckName(title, author, titleCounts).value;
      var prefix := m.config.deckName + "::" + title;
      && StartsWith(name, prefix)
      && (titleCounts[title] > 1 <==> name != prefix)
      && (titleCounts[title] > 1 ==> name[|prefix|..] == " (" + author + ")")
  {
    var name := m.CreateDeckName(title, author, titleCounts).value;
    var prefix := m.config.deckName + "::" + title;
    assert name[..|prefix|] == prefix;
    if titleCounts[title] > 1 {
      assert |name| > |prefix|;
    }
  }

  /** Two poems that share a title, in separate decks, land in different decks when
      their authors differ. */
  lemma SharedTitleSeparated(m: DeckManager, title: string, author1: string, author2: string,
                             titleCounts: map<string, int>)
    requires m.config.individualDecks && title in titleCounts && titleCounts[title] > 1
    requires author1 != author2
    ensures m.CreateDeckName(title, author1, titleCounts) != m.CreateDeckName(title, author2, titleCounts)
  {
    DeckNameShape(m, title, author1, titleCounts);
    DeckNameShape(m, title, author2, titleCounts);
    ParenthesisedInner(author1);
    ParenthesisedInner(author2);
  }

  lemma ParenthesisedInner(a: string)
    ensures (" (" + a + ")")[2..|a| + 2] == a
  {
  }
}
