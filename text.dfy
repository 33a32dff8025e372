/** Python `str` operations the poem pipeline relies on, written out over `seq<char>`:
    whitespace and line-break classes, strip/lstrip/rstrip, split(), splitlines(),
    find, join and split(sep), html.escape and the decimal rendering of integers. */
module Text {

  datatype Option<+T> = None | Some(value: T)

  // ---------------------------------------------------------------- characters

  /** The characters for which Python's `str.isspace()` holds. */
  const SpaceChars: set<char> :=
    {' ', '\t', '\n', '\r', '\U{000B}', '\U{000C}', '\U{001C}', '\U{001D}', '\U{001E}', '\U{001F}',
     '\U{0085}', '\U{00A0}', '\U{1680}',
     '\U{2000}', '\U{2001}', '\U{2002}', '\U{2003}', '\U{2004}', '\U{2005}', '\U{2006}',
     '\U{2007}', '\U{2008}', '\U{2009}', '\U{200A}',
     '\U{2028}', '\U{2029}', '\U{202F}', '\U{205F}', '\U{3000}'}

  /** The characters at which Python's `str.splitlines()` ends a line. */
  const LineBreakChars: set<char> :=
    {'\n', '\r', '\U{000B}', '\U{000C}', '\U{001C}', '\U{001D}', '\U{001E}',
     '\U{0085}', '\U{2028}', '\U{2029}'}

  predicate IsSpace(c: char)
  {
    c in SpaceChars
  }

  predicate IsLineBreak(c: char)
  {
    c in LineBreakChars
  }

  predicate AllSpace(s: string)
  {
    forall i :: 0 <= i < |s| ==> IsSpace(s[i])
  }

  /** A non-empty run of non-whitespace characters: one element of `str.split()`. */
  predicate IsWord(w: string)
  {
    |w| > 0 && forall i :: 0 <= i < |w| ==> !IsSpace(w[i])
  }

  predicate NoLineBreak(s: string)
  {
    forall i :: 0 <= i < |s| ==> !IsLineBreak(s[i])
  }

  function Spaces(n: nat): string
  {
    seq(n, _ => ' ')
  }

  predicate StartsWith(s: string, prefix: string)
  {
    |prefix| <= |s| && s[..|prefix|] == prefix
  }

  predicate EndsWith(s: string, suffix: string)
  {
    |suffix| <= |s| && s[|s| - |suffix|..] == suffix
  }

  // ---------------------------------------------------------------- strip

  /** Number of whitespace characters at the start of `s`. */
  function LeadingSpace(s: string): (n: nat)
    ensures n <= |s|
    ensures forall i :: 0 <= i < n ==> IsSpace(s[i])
    ensures n == |s| || !IsSpace(s[n])
  {
    if s != [] && IsSpace(s[0]) then 1 + LeadingSpace(s[1..]) else 0
  }

  /** Number of whitespace characters at the end of `s`. */
  function TrailingSpace(s: string): (n: nat)
    ensures n <= |s|
    ensures forall i :: |s| - n <= i < |s| ==> IsSpace(s[i])
    ensures n == |s| || !IsSpace(s[|s| - n - 1])
  {
    if s != [] && IsSpace(s[|s| - 1]) then 1 + TrailingSpace(s[..|s| - 1]) else 0
  }

  /** `s.lstrip()`. */
  function LStrip(s: string): string
  {
    s[LeadingSpace(s)..]
  }

  /** `s.rstrip()`. */
  function RStrip(s: string): string
  {
    s[..|s| - TrailingSpace(s)]
  }

  /** `s.strip()` (the same as `s.lstrip().rstrip()`): the unique infix of `s` that
      starts and ends with a non-space character and has only whitespace around it. */
  function Strip(s: string): (r: string)
    ensures var a := LeadingSpace(s); a + |r| <= |s| && r == s[a..a + |r|]
    ensures forall i :: 0 <= i < |s| && !(LeadingSpace(s) <= i < LeadingSpace(s) + |r|) ==> IsSpace(s[i])
    ensures r == [] || (!IsSpace(r[0]) && !IsSpace(r[|r| - 1]))
  {
    var a := LeadingSpace(s);
    var t := TrailingSpace(s);
    if a == |s| then [] else s[a..|s| - t]
  }

  /** Python's truthiness test `if s.strip():` is "s holds a non-space character". */
  lemma StripEmptyIffAllSpace(s: string)
    ensures Strip(s) == [] <==> AllSpace(s)
  {
  }

  /** A string with no whitespace at either end is its own `strip()`. */
  lemma StripUnpadded(s: string)
    requires |s| > 0 && !IsSpace(s[0]) && !IsSpace(s[|s| - 1])
    ensures Strip(s) == s
  {
    assert s[0..|s|] == s;
  }

  // ---------------------------------------------------------------- split()

  /** Length of the run of non-whitespace characters at the start of `s`. */
  function WordEnd(s: string): (j: nat)
    ensures j <= |s|
    ensures forall i :: 0 <= i < j ==> !IsSpace(s[i])
    ensures j == |s| || IsSpace(s[j])
  {
    if s == [] || IsSpace(s[0]) then 0 else 1 + WordEnd(s[1..])
  }

  /** `s.split()` with no separator: the maximal runs of non-whitespace characters. */
  function Words(s: string): (r: seq<string>)
    ensures forall k :: 0 <= k < |r| ==> IsWord(r[k])
    decreases |s|
  {
    if s == [] then []
    else if IsSpace(s[0]) then Words(s[1..])
    else
      var j := WordEnd(s);
      [s[..j]] + Words(s[j..])
  }

  // ---------------------------------------------------------------- splitlines()

  /** Length of the first line of `s`, up to (not including) its line break. */
  function LineEnd(s: string): (j: nat)
    ensures j <= |s|
    ensures forall i :: 0 <= i < j ==> !IsLineBreak(s[i])
    ensures j == |s| || IsLineBreak(s[j])
  {
    if s == [] || IsLineBreak(s[0]) then 0 else 1 + LineEnd(s[1..])
  }

  /** `s.splitlines()`: every line break ends a line ("\r\n" counts as one break),
      and a final line is produced only when text follows the last break. */
  function SplitLines(s: string): (r: seq<string>)
    ensures forall k :: 0 <= k < |r| ==> NoLineBreak(r[k])
    ensures r == [] <==> s == []
    decreases |s|
  {
    if s == [] then []
    else
      var j := LineEnd(s);
      if j == |s| then [s]
      else if s[j] == '\r' && j + 1 < |s| && s[j + 1] == '\n' then [s[..j]] + SplitLines(s[j + 2..])
      else [s[..j]] + SplitLines(s[j + 1..])
  }

  // ---------------------------------------------------------------- find, join, split(sep)

  predicate OccursAt(s: string, pat: string, i: nat)
  {
    i + |pat| <= |s| && s[i..i + |pat|] == pat
  }

  predicate Contains(s: string, pat: string)
  {
    exists i: nat :: i <= |s| && OccursAt(s, pat, i)
  }

  /** `s.find(pat, from)`: the first position at or after `from` where `pat` occurs. */
  function Find(s: string, pat: string, from: nat): (r: Option<nat>)
    ensures r.Some? ==> from <= r.value && OccursAt(s, pat, r.value)
    ensures r.Some? ==> forall i: nat :: from <= i < r.value ==> !OccursAt(s, pat, i)
    ensures r.None? ==> forall i: nat :: from <= i ==> !OccursAt(s, pat, i)
    decreases |s| - from
  {
    if from + |pat| > |s| then None
    else if s[from..from + |pat|] == pat then Some(from)
    else Find(s, pat, from + 1)
  }

  /** `Find` returns the first occurrence. */
  lemma FindFirst(s: string, pat: string, from: nat, i: nat)
    requires from <= i && OccursAt(s, pat, i)
    requires forall k: nat :: from <= k < i ==> !OccursAt(s, pat, k)
    ensures Find(s, pat, from) == Some(i)
  {
  }

  /** `sep.join(parts)`. */
  function Join(sep: string, parts: seq<string>): string
  {
    if |parts| == 0 then ""
    else if |parts| == 1 then parts[0]
    else parts[0] + sep + Join(sep, parts[1..])
  }

  /** Two parts joined: the first, the separator, the second. */
  lemma JoinTwo(sep: string, x: string, y: string)
    ensures Join(sep, [x, y]) == x + sep + y
  {
    assert [x, y][1..] == [y];
  }

  /** Three parts joined, with the separator between each pair. */
  lemma JoinThree(sep: string, x: string, y: string, z: string)
    ensures Join(sep, [x, y, z]) == x + sep + y + sep + z
  {
    assert [x, y, z][1..] == [y, z];
    JoinTwo(sep, y, z);
    assert x + sep + (y + sep + z) == x + sep + y + sep + z;
  }

  /** `s.split(sep)` for a non-empty separator. */
  function SplitOn(s: string, sep: string): (r: seq<string>)
    requires |sep| > 0
    ensures |r| > 0
    decreases |s|
  {
    match Find(s, sep, 0)
    case None => [s]
    case Some(i) => [s[..i]] + SplitOn(s[i + |sep|..], sep)
  }

  /** No proper prefix of `sep` is also a suffix of it, so two occurrences never overlap. */
  predicate Borderless(sep: string)
  {
    forall k :: 0 < k < |sep| ==> sep[..k] != sep[|sep| - k..]
  }

  /** `<br>` does not overlap itself. */
  lemma BrBorderless()
    ensures Borderless("<br>")
  {
    var sep := "<br>";
    forall k | 0 < k < |sep| ensures sep[..k] != sep[|sep| - k..] {
      assert sep[..k][0] == '<';
      assert sep[|sep| - k..][0] == sep[|sep| - k] != '<';
    }
  }

  // ---------------------------------------------------------------- html.escape

  /** The characters `html.escape` replaces by entities apart from `&`. */
  predicate IsMarkup(c: char)
  {
    c == '<' || c == '>' || c == '"' || c == '\''
  }

  /** One character of `html.escape(s, quote=True)`. */
  function EscapeChar(c: char): (r: string)
    ensures forall i :: 0 <= i < |r| ==> !IsMarkup(r[i]) && (IsLineBreak(r[i]) ==> r[i] == c)
  {
    if c == '&' then "&amp;"
    else if c == '<' then "&lt;"
    else if c == '>' then "&gt;"
    else if c == '"' then "&quot;"
    else if c == '\'' then "&#x27;"
    else [c]
  }

  /** `html.escape(s)`: the result holds none of the characters that HTML treats as markup. */
  function HtmlEscape(s: string): (r: string)
    ensures forall i :: 0 <= i < |r| ==> !IsMarkup(r[i])
    ensures NoLineBreak(s) ==> NoLineBreak(r)
  {
    if s == [] then []
    else
      var e := EscapeChar(s[0]);
      var t := HtmlEscape(s[1..]);
      NoMarkupConcat(e, t);
      if NoLineBreak(s) then
        assert !IsLineBreak(s[0]);
        NoLineBreakConcat(e, t);
        e + t
      else e + t
  }

  lemma NoMarkupConcat(x: string, y: string)
    requires forall i :: 0 <= i < |x| ==> !IsMarkup(x[i])
    requires forall i :: 0 <= i < |y| ==> !IsMarkup(y[i])
    ensures forall i :: 0 <= i < |x + y| ==> !IsMarkup((x + y)[i])
  {
    forall i | 0 <= i < |x + y| ensures !IsMarkup((x + y)[i]) {
      if i >= |x| {
        assert (x + y)[i] == y[i - |x|];
      }
    }
  }

  lemma NoLineBreakConcat(x: string, y: string)
    requires NoLineBreak(x) && NoLineBreak(y)
    ensures NoLineBreak(x + y)
  {
    forall i | 0 <= i < |x + y| ensures !IsLineBreak((x + y)[i]) {
      if i >= |x| {
        assert (x + y)[i] == y[i - |x|];
      }
    }
  }

  /** Text without `&` and markup characters is left as it is. */
  lemma {:induction false} EscapePlain(s: string)
    requires forall i :: 0 <= i < |s| ==> s[i] != '&' && !IsMarkup(s[i])
    ensures HtmlEscape(s) == s
  {
    if s != [] {
      EscapePlain(s[1..]);
      assert s == [s[0]] + s[1..];
    }
  }

  /** Decodes exactly the five entities `HtmlEscape` produces. */
  function HtmlUnescape(t: string): string
    decreases |t|
  {
    if t == [] then []
    else if t[0] != '&' then [t[0]] + HtmlUnescape(t[1..])
    else if StartsWith(t, "&amp;") then "&" + HtmlUnescape(t[5..])
    else if StartsWith(t, "&lt;") then "<" + HtmlUnescape(t[4..])
    else if StartsWith(t, "&gt;") then ">" + HtmlUnescape(t[4..])
    else if StartsWith(t, "&quot;") then "\"" + HtmlUnescape(t[6..])
    else if StartsWith(t, "&#x27;") then "'" + HtmlUnescape(t[6..])
    else [t[0]] + HtmlUnescape(t[1..])
  }

  // ---------------------------------------------------------------- integers

  function DigitChar(d: nat): char
    requires d < 10
  {
    ('0' as int + d) as char
  }

  /** `str(n)` for a natural number. */
  function NatToString(n: nat): (r: string)
    ensures |r| > 0
    ensures forall i :: 0 <= i < |r| ==> '0' <= r[i] <= '9'
    ensures r[0] == '0' ==> n == 0
  {
    if n < 10 then [DigitChar(n)] else NatToString(n / 10) + [DigitChar(n % 10)]
  }

  predicate IsDigit(c: char)
  {
    '0' <= c <= '9'
  }

  predicate AllDigits(s: string)
  {
    forall i :: 0 <= i < |s| ==> IsDigit(s[i])
  }

  /** The value of a string of ASCII decimal digits. */
  function DigitsValue(s: string): nat
    requires AllDigits(s)
  {
    if s == [] then 0 else DigitsValue(s[..|s| - 1]) * 10 + (s[|s| - 1] as int - '0' as int)
  }

  /** `str(i)` for an integer. */
  function IntToString(i: int): string
  {
    if i < 0 then "-" + NatToString(-i) else NatToString(i)
  }

  // ---------------------------------------------------------------- lemmas

  /** Reading back the digits of `str(n)` gives `n`. */
  lemma {:induction false} NatToStringValue(n: nat)
    ensures AllDigits(NatToString(n)) && DigitsValue(NatToString(n)) == n
  {
    var r := NatToString(n);
    if n >= 10 {
      NatToStringValue(n / 10);
      assert r[..|r| - 1] == NatToString(n / 10);
    }
  }

  /** In `p a q b == p c q d`, where `a` and `c` are digit runs and `q` starts with a
      non-digit, `a` is no longer than `c`. */
  lemma DigitRunShorter(p: string, q: string, a: string, b: string, c: string, d: string)
    requires AllDigits(a) && AllDigits(c) && |q| > 0 && !IsDigit(q[0])
    requires p + a + q + b == p + c + q + d
    ensures |a| <= |c|
  {
    if |c| < |a| {
      DigitMeetsSeparator(p, q, a, b, c, d);
      assert false;
    }
  }

  /** Where the shorter run `c` ends, `p c q d` holds the separator's first character and
      `p a q b` still holds a digit of `a`. */
  lemma DigitMeetsSeparator(p: string, q: string, a: string, b: string, c: string, d: string)
    requires AllDigits(a) && |q| > 0 && |c| < |a|
    ensures (p + c + q + d)[|p| + |c|] == q[0] && IsDigit((p + a + q + b)[|p| + |c|])
  {
  }

  /** Two strings `p a q b` built around digit runs `a` and `c`, with a separator `q`
      that starts with a non-digit, determine their digit runs and tails. */
  lemma DigitFieldsUnique(p: string, q: string, a: string, b: string, c: string, d: string)
    requires AllDigits(a) && AllDigits(c) && |q| > 0 && !IsDigit(q[0])
    requires p + a + q + b == p + c + q + d
    ensures a == c && b == d
  {
    DigitRunShorter(p, q, a, b, c, d);
    DigitRunShorter(p, q, c, d, a, b);
    var x, y := p + a + q + b, p + c + q + d;
    assert a == x[|p|..|p| + |a|] && c == y[|p|..|p| + |c|];
    assert b == x[|p| + |a| + |q|..] && d == y[|p| + |c| + |q|..];
  }

  /** `str` is injective on naturals. */
  lemma NatToStringInjective(m: nat, n: nat)
    requires NatToString(m) == NatToString(n)
    ensures m == n
  {
    NatToStringValue(m);
    NatToStringValue(n);
  }

  /** `s.split()` is empty exactly when `s` is all whitespace. */
  lemma {:induction false} WordsOfSpaces(s: string)
    ensures Words(s) == [] <==> AllSpace(s)
    decreases |s|
  {
    if s != [] && IsSpace(s[0]) {
      WordsOfSpaces(s[1..]);
      assert AllSpace(s) <==> AllSpace(s[1..]) by {
        if AllSpace(s[1..]) {
          forall i | 0 <= i < |s| ensures IsSpace(s[i]) {
            if i > 0 { assert s[i] == s[1..][i - 1]; }
          }
        }
      }
    }
  }

  /** `WordEnd` is determined by its postcondition. */
  lemma WordEndUnique(s: string, j: nat)
    requires j <= |s|
    requires forall i :: 0 <= i < j ==> !IsSpace(s[i])
    requires j == |s| || IsSpace(s[j])
    ensures WordEnd(s) == j
  {
  }

  /** Cutting a string just before a whitespace character cuts its word list in two. */
  lemma {:induction false} WordsAppend(s: string, t: string)
    requires t == [] || IsSpace(t[0])
    ensures Words(s + t) == Words(s) + Words(t)
    decreases |s|
  {
    if s == [] {
      assert s + t == t;
    } else if IsSpace(s[0]) {
      assert (s + t)[1..] == s[1..] + t;
      WordsAppend(s[1..], t);
    } else {
      var j := WordEnd(s);
      WordEndUnique(s + t, j);
      assert (s + t)[..j] == s[..j];
      assert (s + t)[j..] == s[j..] + t;
      WordsAppend(s[j..], t);
    }
  }

  /** Leading whitespace contributes no words. */
  lemma {:induction false} WordsSpacePrefix(p: string, t: string)
    requires AllSpace(p)
    ensures Words(p + t) == Words(t)
    decreases |p|
  {
    if p != [] {
      assert (p + t)[1..] == p[1..] + t;
      WordsSpacePrefix(p[1..], t);
    } else {
      assert p + t == t;
    }
  }

  /** A single word splits into itself. */
  lemma WordsOfWord(w: string)
    requires IsWord(w)
    ensures Words(w) == [w]
  {
    WordEndUnique(w, |w|);
    assert w[..|w|] == w;
  }

  /** `s.strip().split() == s.split()`. */
  lemma WordsOfStrip(s: string)
    ensures Words(Strip(s)) == Words(s)
  {
    var r := Strip(s);
    var a := LeadingSpace(s);
    var head, tail := s[..a], s[a + |r|..];
    assert AllSpace(head);
    assert AllSpace(tail) by {
      forall i | 0 <= i < |tail| ensures IsSpace(tail[i]) {
        assert tail[i] == s[a + |r| + i];
      }
    }
    assert s == head + (r + tail) by {
      assert s[a..a + |r|] == r;
      assert s == s[..a] + s[a..a + |r|] + s[a + |r|..];
    }
    WordsSpacePrefix(head, r + tail);
    WordsAppend(r, tail);
    WordsOfSpaces(tail);
  }

  /** A separator that cannot overlap itself is found right after the first part when
      that part does not contain it. */
  lemma FindAfterFreePart(p: string, sep: string, rest: string)
    requires |sep| > 0 && Borderless(sep)
    requires !Contains(p, sep)
    ensures Find(p + sep + rest, sep, 0) == Some(|p|)
  {
    var s := p + sep + rest;
    assert s[|p|..|p| + |sep|] == sep;
    var f := Find(s, sep, 0);
    assert OccursAt(s, sep, |p|);
    if f.value < |p| {
      var i := f.value;
      if i + |sep| <= |p| {
        assert p[i..i + |sep|] == s[i..i + |sep|];
        NotContainsAt(p, sep, i);
        assert false;
      } else {
        OverlapIsBorder(p, sep, rest, i);
        assert false;
      }
    }
  }

  lemma NotContainsAt(p: string, sep: string, i: nat)
    requires !Contains(p, sep) && i <= |p|
    ensures !OccursAt(p, sep, i)
  {
  }

  /** An occurrence of `sep` that starts inside `p` and ends inside the `sep` that follows
      `p` exhibits a border of `sep`. */
  lemma OverlapIsBorder(p: string, sep: string, rest: string, i: nat)
    requires i < |p| < i + |sep|
    requires OccursAt(p + sep + rest, sep, i)
    ensures var k := i + |sep| - |p|; sep[..k] == sep[|sep| - k..]
  {
    var s := p + sep + rest;
    var k := i + |sep| - |p|;
    forall m | 0 <= m < k ensures sep[..k][m] == sep[|sep| - k..][m] {
      assert sep[..k][m] == s[|p| + m];
      assert s[|p| + m] == s[i..i + |sep|][|p| + m - i];
    }
  }

  /** `sep.join(parts).split(sep) == parts` when no part contains the separator. */
  lemma {:induction false} SplitOnJoin(sep: string, parts: seq<string>)
    requires |sep| > 0 && Borderless(sep)
    requires |parts| > 0
    requires forall k :: 0 <= k < |parts| ==> !Contains(parts[k], sep)
    ensures SplitOn(Join(sep, parts), sep) == parts
  {
    if |parts| > 1 {
      var p := parts[0];
      var rest := Join(sep, parts[1..]);
      FindAfterFreePart(p, sep, rest);
      var s := p + sep + rest;
      assert s[..|p|] == p;
      assert s[|p| + |sep|..] == rest;
      SplitOnJoin(sep, parts[1..]);
    }
  }

  /** One step of the decoder: an escaped character followed by anything. */
  lemma UnescapeStep(c: char, e: string)
    ensures HtmlUnescape(EscapeChar(c) + e) == [c] + HtmlUnescape(e)
  {
    if c == '&' {
      UnescapeAmp(e);
    } else if c == '<' {
      UnescapeLt(e);
    } else if c == '>' {
      UnescapeGt(e);
    } else if c == '"' {
      UnescapeQuot(e);
    } else if c == '\'' {
      UnescapeApos(e);
    } else {
      UnescapePlain(c, e);
    }
  }

  lemma UnescapePlain(c: char, e: string)
    requires c != '&'
    ensures HtmlUnescape([c] + e) == [c] + HtmlUnescape(e)
  {
    var t := [c] + e;
    assert !StartsWith(t, "&") by { assert t[..1][0] == c; }
    assert t[0] == c && t[1..] == e;
  }

  lemma UnescapeAmp(e: string)
    ensures HtmlUnescape("&amp;" + e) == "&" + HtmlUnescape(e)
  {
    var t := "&amp;" + e;
    assert t[1] == 'a';
    assert t[..5] == "&amp;" && t[5..] == e;
  }

  lemma UnescapeLt(e: string)
    ensures HtmlUnescape("&lt;" + e) == "<" + HtmlUnescape(e)
  {
    var t := "&lt;" + e;
    assert t[1] == 'l';
    assert !StartsWith(t, "&amp;") by { if |t| >= 5 { assert t[..5][1] == t[1]; } }
    assert t[..4] == "&lt;" && t[4..] == e;
  }

  lemma UnescapeGt(e: string)
    ensures HtmlUnescape("&gt;" + e) == ">" + HtmlUnescape(e)
  {
    var t := "&gt;" + e;
    assert t[1] == 'g';
    assert !StartsWith(t, "&amp;") by { if |t| >= 5 { assert t[..5][1] == t[1]; } }
    assert !StartsWith(t, "&lt;") by { if |t| >= 4 { assert t[..4][1] == t[1]; } }
    assert t[..4] == "&gt;" && t[4..] == e;
  }

  lemma UnescapeQuot(e: string)
    ensures HtmlUnescape("&quot;" + e) == "\"" + HtmlUnescape(e)
  {
    var t := "&quot;" + e;
    assert t[1] == 'q';
    assert !StartsWith(t, "&amp;") by { if |t| >= 5 { assert t[..5][1] == t[1]; } }
    assert !StartsWith(t, "&lt;") by { if |t| >= 4 { assert t[..4][1] == t[1]; } }
    assert !StartsWith(t, "&gt;") by { if |t| >= 4 { assert t[..4][1] == t[1]; } }
    assert t[..6] == "&quot;" && t[6..] == e;
  }

  lemma UnescapeApos(e: string)
    ensures HtmlUnescape("&#x27;" + e) == "'" + HtmlUnescape(e)
  {
    var t := "&#x27;" + e;
    assert t[1] == '#';
    assert !StartsWith(t, "&amp;") by { if |t| >= 5 { assert t[..5][1] == t[1]; } }
    assert !StartsWith(t, "&lt;") by { if |t| >= 4 { assert t[..4][1] == t[1]; } }
    assert !StartsWith(t, "&gt;") by { if |t| >= 4 { assert t[..4][1] == t[1]; } }
    assert !StartsWith(t, "&quot;") by { if |t| >= 6 { assert t[..6][1] == t[1]; } }
    assert t[..6] == "&#x27;" && t[6..] == e;
  }

  /** `html.unescape` restricted to the five entities undoes `html.escape`. */
  lemma {:induction false} UnescapeEscape(s: string)
    ensures HtmlUnescape(HtmlEscape(s)) == s
  {
    if s != [] {
      UnescapeEscape(s[1..]);
      UnescapeStep(s[0], HtmlEscape(s[1..]));
      assert s == [s[0]] + s[1..];
    }
  }

  /** Every non-space character of `s` lands in some line of `s.splitlines()`, so a string
      that is not all whitespace has a line that is not all whitespace. */
  lemma {:induction false} SplitLinesKeepsText(s: string, i: nat)
    requires i < |s| && !IsSpace(s[i])
    ensures exists k :: 0 <= k < |SplitLines(s)| && !AllSpace(SplitLines(s)[k])
    decreases |s|
  {
    var j := LineEnd(s);
    if i < j {
      assert s[..j][i] == s[i];
      assert !AllSpace(SplitLines(s)[0]);
    } else {
      assert s[j] in LineBreakChars;
      var next := if s[j] == '\r' && j + 1 < |s| && s[j + 1] == '\n' then j + 2 else j + 1;
      assert s[j] in SpaceChars && (next == j + 2 ==> s[j + 1] in SpaceChars);
      SplitLinesRest(s, next, i);
    }
  }

  lemma {:induction false} SplitLinesRest(s: string, next: nat, i: nat)
    requires LineEnd(s) < |s|
    requires next == if s[LineEnd(s)] == '\r' && LineEnd(s) + 1 < |s| && s[LineEnd(s) + 1] == '\n'
                     then LineEnd(s) + 2 else LineEnd(s) + 1
    requires next <= i < |s| && !IsSpace(s[i])
    ensures exists k :: 0 <= k < |SplitLines(s)| && !AllSpace(SplitLines(s)[k])
    decreases |s|, 0
  {
    var rest := s[next..];
    assert rest[i - next] == s[i];
    SplitLinesKeepsText(rest, i - next);
    var k :| 0 <= k < |SplitLines(rest)| && !AllSpace(SplitLines(rest)[k]);
    assert SplitLines(s) == [s[..LineEnd(s)]] + SplitLines(rest);
    assert SplitLines(s)[k + 1] == SplitLines(rest)[k];
  }
}
