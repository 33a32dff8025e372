/** The input checks and the file naming of the interactive poem adder: `validate_year`
    reads a year with Python's `int` and keeps it when it is plausible, `validate_url`
    keeps a web address, and `create_filename` names the new Markdown file after the
    title's slug, adding the author's slug for short or generic titles. The slug function
    (`slugify(text, max_length=n)`) is a parameter; the prompts, the messages printed on
    rejection and the file and editor handling are not part of this model. */
module AddPoem {
  import opened Text

  // ---------------------------------------------------------------- int()

  /** The digits `int` accepts: ASCII digits, with single underscores allowed between
      two digits. */
  predicate IsNumeral(b: string)
  {
    && |b| > 0 && IsDigit(b[0]) && IsDigit(b[|b| - 1])
    && (forall i :: 0 <= i < |b| ==> IsDigit(b[i]) || b[i] == '_')
    && (forall i :: 0 <= i < |b| - 1 ==> b[i] == '_' ==> b[i + 1] != '_')
  }

  /** The digits of a string, in order, everything else dropped. */
  function DigitsOf(b: string): (r: string)
    ensures AllDigits(r) && |r| <= |b|
  {
    if b == [] then []
    else if IsDigit(b[0]) then [b[0]] + DigitsOf(b[1..])
    else DigitsOf(b[1..])
  }

  /** The value of a numeral; `None` for anything else. */
  function NumeralValue(b: string): Option<nat>
  {
    if IsNumeral(b) then Some(DigitsValue(DigitsOf(b))) else None
  }

  /** `int` of a string with no whitespace around it: an optional sign, then a
      numeral. */
  function ParseStripped(t: string): (r: Option<int>)
    ensures r.Some? ==> |t| > 0
  {
    var signed := |t| > 0 && (t[0] == '+' || t[0] == '-');
    match NumeralValue(if signed then t[1..] else t)
    case None => None
    case Some(n) => Some(if signed && t[0] == '-' then -(n as int) else n as int)
  }

  /** `int(s)` for a string: whitespace around it, an optional sign, then a numeral.
      `None` where `int` raises `ValueError`. */
  function ParseInt(s: string): (r: Option<int>)
    ensures r.Some? ==> |Strip(s)| > 0
  {
    ParseStripped(Strip(s))
  }

  // ---------------------------------------------------------------- validate_year, validate_url

  /** `validate_year`: nothing for a missing or empty answer or one `int` rejects;
      otherwise the year when it lies between 1000 and 2100. */
  function ValidateYear(yearStr: Option<string>): (r: Option<int>)
    ensures r.Some? ==> 1000 <= r.value <= 2100 && yearStr.Some? && r == ParseInt(yearStr.value)
    ensures yearStr.Some? && ParseInt(yearStr.value).Some? && 1000 <= ParseInt(yearStr.value).value <= 2100
            ==> r == ParseInt(yearStr.value)
  {
    if yearStr.None? || yearStr.value == [] then None
    else match ParseInt(yearStr.value)
      case None => None
      case Some(year) => if 1000 <= year <= 2100 then Some(year) else None
  }

  /** `validate_url`: the answer itself when it starts with `http://` or `https://`,
      otherwise nothing. */
  function ValidateUrl(urlStr: Option<string>): (r: Option<string>)
    ensures r.Some? <==> urlStr.Some? && (StartsWith(urlStr.value, "http://") || StartsWith(urlStr.value, "https://"))
    ensures r.Some? ==> r == urlStr
  {
    if urlStr.None? || urlStr.value == [] then None
    else if StartsWith(urlStr.value, "http://") || StartsWith(urlStr.value, "https://") then urlStr
    else None
  }

  // ---------------------------------------------------------------- create_filename

  /** The title slugs that count as generic. */
  const GenericTitles: seq<string> := ["poem", "sonnet", "ode", "song"]

  /** Whether a title slug is too short or too generic to name a file alone. */
  predicate NeedsAuthor(base: string)
  {
    |base| < 10 || base in GenericTitles
  }

  /** `create_filename`: the title's slug (at most 50 characters), prefixed with the
      author's slug (at most 20) and `_` when the title slug needs it, then `.md`. */
  function CreateFilename(title: string, author: string, slugify: (string, nat) -> string): (r: string)
    ensures EndsWith(r, ".md")
  {
    var baseName := slugify(title, 50);
    var stem := if NeedsAuthor(baseName) then slugify(author, 20) + "_" + baseName else baseName;
    stem + ".md"
  }

  /** Reads a file name back: the author part before the first `_`, if any, and the
      title part; `None` for a name not ending in `.md`. */
  function SplitFilename(f: string): Option<(Option<string>, string)>
  {
    if !EndsWith(f, ".md") then None
    else
      var stem := f[..|f| - 3];
      match Find(stem, "_", 0)
      case None => Some((None, stem))
      case Some(i) => Some((Some(stem[..i]), stem[i + 1..]))
  }

  // ---------------------------------------------------------------- int() lemmas

  lemma {:induction false} DigitsOfDigits(b: string)
    requires AllDigits(b)
    ensures DigitsOf(b) == b
  {
    if b != [] {
      DigitsOfDigits(b[1..]);
    }
  }

  /** The digits of `str(n)` form a numeral of value `n`. */
  lemma NatRoundTrip(n: nat)
    ensures NumeralValue(NatToString(n)) == Some(n)
  {
    NatToStringValue(n);
    DigitsOfDigits(NatToString(n));
  }

  /** `int(str(i))` is `i` for every integer. */
  lemma ParseIntRoundTrip(i: int)
    ensures ParseInt(IntToString(i)) == Some(i)
  {
    DecimalUnpadded(i);
    if i < 0 {
      NegativeRoundTrip(-i);
    } else {
      NatRoundTrip(i);
      ParseUnsigned(NatToString(i), i);
    }
  }

  lemma NegativeRoundTrip(n: nat)
    requires n > 0
    ensures ParseStripped(IntToString(-(n as int))) == Some(-(n as int))
  {
    var d := NatToString(n);
    assert IntToString(-(n as int)) == "-" + d;
    NatRoundTrip(n);
    ParseNegative(d, n);
  }

  /** `str(i)` has no whitespace around it. */
  lemma DecimalUnpadded(i: int)
    ensures ParseInt(IntToString(i)) == ParseStripped(IntToString(i))
  {
    var s := IntToString(i);
    var digits := NatToString(if i < 0 then -i else i);
    assert s[|s| - 1] == digits[|digits| - 1];
    NotSpace(s[0]);
    NotSpace(s[|s| - 1]);
    ParseUnpadded(s);
  }

  lemma NotSpace(c: char)
    requires IsDigit(c) || c == '-'
    ensures !IsSpace(c)
  {
  }

  lemma ParseUnpadded(s: string)
    requires |s| > 0 && !IsSpace(s[0]) && !IsSpace(s[|s| - 1])
    ensures ParseInt(s) == ParseStripped(s)
  {
    StripUnpadded(s);
  }

  lemma ParseUnsigned(b: string, v: nat)
    requires NumeralValue(b) == Some(v)
    ensures ParseStripped(b) == Some(v as int)
  {
  }

  lemma ParseNegative(b: string, v: nat)
    requires NumeralValue(b) == Some(v)
    ensures ParseStripped("-" + b) == Some(-(v as int))
  {
    var s := "-" + b;
    assert s[0] == '-' && s[1..] == b;
  }

  /** A character outside whitespace, digits, signs and `_` makes `int` fail. */
  lemma NonNumericRejected(s: string, k: nat)
    requires k < |s| && !IsSpace(s[k]) && !IsDigit(s[k]) && s[k] != '+' && s[k] != '-' && s[k] != '_'
    ensures ParseInt(s) == None
  {
    var t := Strip(s);
    var a := LeadingSpace(s);
    assert a <= k < a + |t|;
    assert t[k - a] == s[k];
    var signed := |t| > 0 && (t[0] == '+' || t[0] == '-');
    if signed {
      assert t[1..][k - a - 1] == s[k];
    }
  }

  /** A numeral with a doubled underscore is rejected. */
  lemma DoubleUnderscore(d: string)
    requires |d| > 0 && AllDigits(d)
    ensures ParseInt(d + "__" + d) == None
  {
    var s := d + "__" + d;
    StripUnpadded(s);
    assert s[|d|] == '_' && s[|d| + 1] == '_';
  }

  /** A numeral with a trailing underscore is rejected. */
  lemma TrailingUnderscore(d: string)
    requires |d| > 0 && AllDigits(d)
    ensures ParseInt(d + "_") == None
  {
    var s := d + "_";
    StripUnpadded(s);
    assert s[0] == d[0] && s[|s| - 1] == '_';
  }

  // ---------------------------------------------------------------- validate_year, validate_url lemmas

  /** A year written out in decimal passes exactly when it lies between 1000 and 2100. */
  lemma YearsAccepted(year: int)
    ensures ValidateYear(Some(IntToString(year))) == (if 1000 <= year <= 2100 then Some(year) else None)
  {
    ParseIntRoundTrip(year);
  }

  /** A missing or empty year and a year `int` rejects give nothing. */
  lemma YearsRejected(yearStr: Option<string>)
    requires yearStr.None? || yearStr.value == [] || ParseInt(yearStr.value).None?
    ensures ValidateYear(yearStr) == None
  {
  }

  /** Checking a URL twice changes nothing. */
  lemma ValidateUrlIdempotent(urlStr: Option<string>)
    ensures ValidateUrl(ValidateUrl(urlStr)) == ValidateUrl(urlStr)
  {
  }

  // ---------------------------------------------------------------- create_filename lemmas

  /** The generic titles are all shorter than ten characters, so the length test alone
      decides when the author is added. */
  lemma GenericTitlesShort(base: string)
    ensures NeedsAuthor(base) <==> |base| < 10
  {
    if base in GenericTitles {
      var k :| 0 <= k < |GenericTitles| && GenericTitles[k] == base;
      assert |GenericTitles[k]| < 10;
    }
  }

  /** The first `_` in `a + "_" + b`, where `a` has none, is the one after `a`. */
  lemma FindUnderscore(a: string, b: string)
    requires forall i :: 0 <= i < |a| ==> a[i] != '_'
    ensures Find(a + "_" + b, "_", 0) == Some(|a|)
  {
    var s := a + "_" + b;
    assert s[|a|..|a| + 1] == "_";
    assert OccursAt(s, "_", |a|);
    forall i: nat | i < |a| ensures !OccursAt(s, "_", i) {
      assert s[i..i + 1][0] == a[i];
    }
    FindFirst(s, "_", 0, |a|);
  }

  lemma NoUnderscore(a: string)
    requires forall i :: 0 <= i < |a| ==> a[i] != '_'
    ensures Find(a, "_", 0) == None
  {
    forall i: nat | i + 1 <= |a| ensures !OccursAt(a, "_", i) {
      assert a[i..i + 1][0] == a[i];
    }
  }

  /** When slugs hold no `_` (as `slugify` guarantees, whose separator is `-`), the file
      name gives back the title slug and, exactly when the title slug needs it, the
      author slug. */
  lemma FilenameRoundTrip(title: string, author: string, slugify: (string, nat) -> string)
    requires forall s, n, i :: 0 <= i < |slugify(s, n)| ==> slugify(s, n)[i] != '_'
    ensures SplitFilename(CreateFilename(title, author, slugify))
         == Some((if NeedsAuthor(slugify(title, 50)) then Some(slugify(author, 20)) else None, slugify(title, 50)))
  {
    var base, authorSlug := slugify(title, 50), slugify(author, 20);
    var f := CreateFilename(title, author, slugify);
    var stem := if NeedsAuthor(base) then authorSlug + "_" + base else base;
    assert f[..|f| - 3] == stem;
    if NeedsAuthor(base) {
      FindUnderscore(authorSlug, base);
      assert stem[..|authorSlug|] == authorSlug && stem[|authorSlug| + 1..] == base;
    } else {
      NoUnderscore(base);
    }
  }

  /** With slugs cut to their maximum length, a file name has at most 53 characters. */
  lemma FilenameLength(title: string, author: string, slugify: (string, nat) -> string)
    requires forall s, n :: |slugify(s, n)| <= n
    ensures |CreateFilename(title, author, slugify)| <= 53
  {
    GenericTitlesShort(slugify(title, 50));
  }
}
