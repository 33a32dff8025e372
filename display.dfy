/** `MetadataFormatter.format_display`: the citation shown under every card, built from
    the frontmatter with fixed precedence and joined with `<br>`. */
module Display {
  import opened Text
  import opened Parsing

  // ---------------------------------------------------------------- Python values

  /** `d.get(key)`: `None` when the key is absent. */
  function Get(m: map<string, Value>, key: string): Option<Value>
  {
    if key in m then Some(m[key]) else None
  }

  /** Python truthiness of an optional value. */
  predicate Truthy(v: Option<Value>)
  {
    match v
    case None => false
    case Some(VStr(s)) => s != []
    case Some(VInt(i)) => i != 0
    case Some(VBool(b)) => b
    case Some(VNull) => false
    case Some(VOther(_, t)) => t
  }

  /** `a or b`. */
  function Or(a: Option<Value>, b: Option<Value>): Option<Value>
  {
    if Truthy(a) then a else b
  }

  /** `str(v)`, as an f-string renders a value. */
  function Render(v: Value): string
  {
    match v
    case VStr(s) => s
    case VInt(i) => IntToString(i)
    case VBool(b) => if b then "True" else "False"
    case VNull => "None"
    case VOther(repr, _) => repr
  }

  /** `metadata.get(key, fallback or default)` for an optional string argument. */
  function GetOr(m: map<string, Value>, key: string, arg: Option<string>, default: string): Value
  {
    if key in m then m[key]
    else if arg.Some? && arg.value != [] then VStr(arg.value)
    else VStr(default)
  }

  // ---------------------------------------------------------------- format_display

  function TitleValue(m: map<string, Value>, title: Option<string>): Value
  {
    GetOr(m, "title", title, "Unknown Title")
  }

  function AuthorValue(m: map<string, Value>, author: Option<string>): Value
  {
    GetOr(m, "author", author, "Unknown Author")
  }

  /** `metadata.get('url') or metadata.get('source')`. */
  function Url(m: map<string, Value>): Option<Value>
  {
    Or(Get(m, "url"), Get(m, "source"))
  }

  /** The collection/year line, when there is one. */
  function CitationLine(m: map<string, Value>): Option<string>
  {
    var collection, year := Get(m, "collection"), Get(m, "year");
    if Truthy(collection) && Truthy(year) then
      Some("<i>" + Render(collection.value) + "</i> (" + Render(year.value) + ")")
    else if Truthy(collection) then Some("<i>" + Render(collection.value) + "</i>")
    else if Truthy(year) then Some("(" + Render(year.value) + ")")
    else None
  }

  /** The source link line, when there is a URL. */
  function LinkLine(m: map<string, Value>): Option<string>
  {
    var url := Url(m);
    if Truthy(url) then Some("<a href=\"" + Render(url.value) + "\" target=\"_blank\">Source</a>") else None
  }

  function OptLine(line: Option<string>): seq<string>
  {
    if line.Some? then [line.value] else []
  }

  /** The display lines; `None` when the author is not a string, where
      `'<br>'.join(lines)` raises `TypeError`. */
  function DisplayLines(m: map<string, Value>, title: Option<string>, author: Option<string>): Option<seq<string>>
  {
    var a := AuthorValue(m, author);
    if !a.VStr? then None
    else Some(["\"" + Render(TitleValue(m, title)) + "\"", a.s] + OptLine(CitationLine(m)) + OptLine(LinkLine(m)))
  }

  /** `MetadataFormatter.format_display`. */
  function FormatDisplay(m: map<string, Value>, title: Option<string>, author: Option<string>): (r: Option<string>)
    ensures r.Some? <==> AuthorValue(m, author).VStr?
  {
    match DisplayLines(m, title, author)
    case None => None
    case Some(lines) => Some(Join("<br>", lines))
  }

  // ---------------------------------------------------------------- lemmas

  /** The title shown is the metadata's `title` when present, otherwise the non-empty
      argument, otherwise "Unknown Title"; the same precedence holds for the author. */
  lemma HeaderPrecedence(m: map<string, Value>, title: Option<string>, author: Option<string>)
    requires AuthorValue(m, author).VStr?
    ensures var lines := DisplayLines(m, title, author).value;
      && |lines| >= 2
      && ("title" in m ==> lines[0] == "\"" + Render(m["title"]) + "\"")
      && ("title" !in m && title.Some? && title.value != [] ==> lines[0] == "\"" + title.value + "\"")
      && ("title" !in m && (title.None? || title.value == []) ==> lines[0] == "\"Unknown Title\"")
      && ("author" in m ==> m["author"] == VStr(lines[1]))
      && ("author" !in m && author.Some? && author.value != [] ==> lines[1] == author.value)
      && ("author" !in m && (author.None? || author.value == []) ==> lines[1] == "Unknown Author")
  {
  }

  /** The third line is "collection (year)", "collection" or "(year)" by precedence and is
      absent when neither is set; a last line linking to `url or source` follows exactly
      when that value is truthy. */
  lemma OptionalLines(m: map<string, Value>, title: Option<string>, author: Option<string>)
    requires AuthorValue(m, author).VStr?
    ensures var lines := DisplayLines(m, title, author).value;
      var c, y := Get(m, "collection"), Get(m, "year");
      && |lines| == 2 + (if Truthy(c) || Truthy(y) then 1 else 0) + (if Truthy(Url(m)) then 1 else 0)
      && (Truthy(c) && Truthy(y) ==> lines[2] == "<i>" + Render(c.value) + "</i> (" + Render(y.value) + ")")
      && (Truthy(c) && !Truthy(y) ==> lines[2] == "<i>" + Render(c.value) + "</i>")
      && (!Truthy(c) && Truthy(y) ==> lines[2] == "(" + Render(y.value) + ")")
      && (Truthy(Url(m)) ==> lines[|lines| - 1] == "<a href=\"" + Render(Url(m).value) + "\" target=\"_blank\">Source</a>")
  {
    var lines := DisplayLines(m, title, author).value;
    if Truthy(Url(m)) {
      assert lines[|lines| - 1] == LinkLine(m).value;
    }
  }

  /** Splitting the display string on `<br>` gives back its lines, when no field value
      holds `<br>` itself. */
  lemma DisplayRoundTrip(m: map<string, Value>, title: Option<string>, author: Option<string>)
    requires DisplayLines(m, title, author).Some?
    requires forall k :: 0 <= k < |DisplayLines(m, title, author).value| ==> !Contains(DisplayLines(m, title, author).value[k], "<br>")
    ensures SplitOn(FormatDisplay(m, title, author).value, "<br>") == DisplayLines(m, title, author).value
  {
    BrBorderless();
    SplitOnJoin("<br>", DisplayLines(m, title, author).value);
  }

  /** Frontmatter `title: X, author: Y, collection: Z, year: 1999` without a URL renders
      as three lines. */
  lemma ThreeLineCitation()
    ensures FormatDisplay(ScenarioMetadata(), None, None) == Some("\"X\"<br>Y<br><i>Z</i> (1999)")
  {
    var m := ScenarioMetadata();
    ScenarioLines();
    ScenarioJoin();
    assert FormatDisplay(m, None, None) == Some(Join("<br>", ["\"X\"", "Y", "<i>Z</i> (1999)"]));
  }

  lemma ScenarioCitation()
    ensures CitationLine(ScenarioMetadata()) == Some("<i>Z</i> (1999)")
    ensures LinkLine(ScenarioMetadata()) == None
  {
    var m := ScenarioMetadata();
    ScenarioLookups();
    Year1999();
    assert Truthy(Get(m, "collection")) && Truthy(Get(m, "year"));
    assert "<i>" + "Z" + "</i> (" + "1999" + ")" == "<i>Z</i> (1999)";
  }

  lemma ScenarioLines()
    ensures DisplayLines(ScenarioMetadata(), None, None) == Some(["\"X\"", "Y", "<i>Z</i> (1999)"])
  {
    var m := ScenarioMetadata();
    ScenarioLookups();
    ScenarioCitation();
    assert TitleValue(m, None) == VStr("X") && AuthorValue(m, None) == VStr("Y");
    assert "\"" + "X" + "\"" == "\"X\"";
    var lines := DisplayLines(m, None, None).value;
    var expected: seq<string> := ["\"X\"", "Y", "<i>Z</i> (1999)"];
    assert |lines| == 3 && lines[0] == expected[0] && lines[1] == expected[1] && lines[2] == expected[2];
    assert lines == expected;
  }

  lemma ScenarioJoin()
    ensures Join("<br>", ["\"X\"", "Y", "<i>Z</i> (1999)"]) == "\"X\"<br>Y<br><i>Z</i> (1999)"
  {
    JoinThree("<br>", "\"X\"", "Y", "<i>Z</i> (1999)");
    assert "\"X\"" + "<br>" + "Y" + "<br>" + "<i>Z</i> (1999)" == "\"X\"<br>Y<br><i>Z</i> (1999)";
  }

  function ScenarioMetadata(): map<string, Value>
  {
    map["title" := VStr("X"), "author" := VStr("Y"), "collection" := VStr("Z"), "year" := VInt(1999)]
  }

  lemma ScenarioLookups()
    ensures var m := ScenarioMetadata();
      && Get(m, "title") == Some(VStr("X")) && Get(m, "author") == Some(VStr("Y"))
      && Get(m, "collection") == Some(VStr("Z")) && Get(m, "year") == Some(VInt(1999))
      && Get(m, "url") == None && Get(m, "source") == None
  {
    assert "source"[0] != "author"[0];
  }

  lemma Year1999()
    ensures Render(VInt(1999)) == "1999"
  {
    assert NatToString(1) == "1";
    assert NatToString(19) == "19";
    assert NatToString(199) == "199";
  }
}
