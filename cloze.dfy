/** `ClozeGenerator.create_cloze_stanza`: the whole stanza as one `<pre>` block in which
    every visual segment of one logical line is hidden behind a `{{c1::…}}` marker. */
module Cloze {
  import opened Text
  import opened Wrapping

  /** The cloze marker around one HTML-escaped visual line. */
  function Mark(line: string): string
  {
    "{{c1::" + HtmlEscape(line) + "}}"
  }

  /** The text inside a marker, unescaped again. */
  function Unmark(s: string): string
    requires |s| >= 8
  {
    HtmlUnescape(s[6..|s| - 2])
  }

  /** `[i for i, orig in line_groups.items() if orig == logical_line_idx]`, as a set:
      the slots are overwritten independently, so their order does not matter. */
  function Targets(groups: map<nat, nat>, target: nat): set<nat>
  {
    set i | i in groups && groups[i] == target
  }

  /** The lines after marking every in-range target slot. */
  function MarkedLines(lines: seq<string>, targets: set<nat>): seq<string>
  {
    seq(|lines|, i requires 0 <= i < |lines| => if i in targets then Mark(lines[i]) else lines[i])
  }

  function Pre(safe: seq<string>): string
  {
    "<pre>" + Join("\n", safe) + "</pre>"
  }

  /** `ClozeGenerator.create_cloze_stanza`: copy the lines, overwrite each target slot that
      is in range with its marker, and join the copy with newlines inside `<pre>`. */
  method CreateClozeStanza(lines: seq<string>, logicalLineIdx: nat, lineGroups: map<nat, nat>) returns (r: string)
    ensures r == Pre(MarkedLines(lines, Targets(lineGroups, logicalLineIdx)))
  {
    var safe := lines;
    var pending := Targets(lineGroups, logicalLineIdx);
    ghost var done: set<nat> := {};
    while pending != {}
      invariant pending + done == Targets(lineGroups, logicalLineIdx) && pending !! done
      invariant safe == MarkedLines(lines, done)
      decreases |pending|
    {
      var idx :| idx in pending;
      MarkOne(lines, done, idx);
      if idx < |safe| {
        safe := safe[idx := Mark(safe[idx])];
      }
      pending := pending - {idx};
      done := done + {idx};
    }
    r := "<pre>" + Join("\n", safe) + "</pre>";
  }

  // ---------------------------------------------------------------- lemmas

  /** Marking one more slot: an in-range slot is overwritten with its marker, one out of
      range changes nothing. */
  lemma MarkOne(lines: seq<string>, done: set<nat>, idx: nat)
    requires idx !in done
    ensures idx < |lines| ==> MarkedLines(lines, done + {idx}) == MarkedLines(lines, done)[idx := Mark(lines[idx])]
    ensures idx >= |lines| ==> MarkedLines(lines, done + {idx}) == MarkedLines(lines, done)
  {
  }

  lemma {:induction false} EscapeLength(s: string)
    ensures |HtmlEscape(s)| >= |s|
  {
    if s != [] {
      EscapeLength(s[1..]);
    }
  }

  /** Exactly the in-range slots that belong to the logical line change; each of them
      becomes a marker whose unescaped content is the original line, and every other
      line is kept as it was. */
  lemma MarkedSlots(lines: seq<string>, groups: map<nat, nat>, target: nat)
    ensures var safe := MarkedLines(lines, Targets(groups, target));
      && |safe| == |lines|
      && (forall i :: 0 <= i < |lines| ==> (safe[i] != lines[i] <==> i in groups && groups[i] == target))
      && (forall i :: 0 <= i < |lines| && i in groups && groups[i] == target ==>
            |safe[i]| >= 8 && StartsWith(safe[i], "{{c1::") && EndsWith(safe[i], "}}") && Unmark(safe[i]) == lines[i])
  {
    var safe := MarkedLines(lines, Targets(groups, target));
    forall i | 0 <= i < |lines| && i in groups && groups[i] == target
      ensures |safe[i]| >= 8 && StartsWith(safe[i], "{{c1::") && EndsWith(safe[i], "}}") && Unmark(safe[i]) == lines[i]
    {
      EscapeLength(lines[i]);
      UnescapeEscape(lines[i]);
      assert safe[i][6..|safe[i]| - 2] == HtmlEscape(lines[i]);
    }
    forall i | 0 <= i < |lines| && i in groups && groups[i] == target
      ensures safe[i] != lines[i]
    {
      EscapeLength(lines[i]);
    }
  }

  /** A line without line breaks holds no `\n`. */
  lemma NoNewline(s: string)
    requires NoLineBreak(s)
    ensures !Contains(s, "\n")
  {
    forall i: nat | i <= |s| ensures !OccursAt(s, "\n", i) {
      if i + 1 <= |s| {
        assert s[i..i + 1][0] == s[i];
        assert !IsLineBreak(s[i]);
      }
    }
  }

  /** Marking keeps every line free of `\n`. */
  lemma MarkedNoNewline(lines: seq<string>, targets: set<nat>)
    requires forall k :: 0 <= k < |lines| ==> NoLineBreak(lines[k])
    ensures forall k :: 0 <= k < |lines| ==> !Contains(MarkedLines(lines, targets)[k], "\n")
  {
    var safe := MarkedLines(lines, targets);
    forall k | 0 <= k < |safe| ensures !Contains(safe[k], "\n") {
      if k in targets {
        assert NoLineBreak(HtmlEscape(lines[k]));
        assert NoLineBreak(safe[k]) by {
          assert safe[k] == "{{c1::" + HtmlEscape(lines[k]) + "}}";
        }
      }
      NoNewline(safe[k]);
    }
  }

  lemma PreInner(safe: seq<string>)
    ensures var r := Pre(safe);
      && StartsWith(r, "<pre>") && EndsWith(r, "</pre>") && r[5..|r| - 6] == Join("\n", safe)
  {
    var r := Pre(safe);
    assert r[5..|r| - 6] == Join("\n", safe);
    assert r[..5] == "<pre>";
    assert r[|r| - 6..] == "</pre>";
  }

  /** The `<pre>` block gives back the marked lines when split on newlines, provided no
      input line holds a line break (as holds for lines produced by `splitlines`). */
  lemma ClozeRoundTrip(lines: seq<string>, groups: map<nat, nat>, target: nat)
    requires |lines| > 0
    requires forall k :: 0 <= k < |lines| ==> NoLineBreak(lines[k])
    ensures var r := Pre(MarkedLines(lines, Targets(groups, target)));
      && StartsWith(r, "<pre>") && EndsWith(r, "</pre>")
      && SplitOn(r[5..|r| - 6], "\n") == MarkedLines(lines, Targets(groups, target))
  {
    var safe := MarkedLines(lines, Targets(groups, target));
    MarkedNoNewline(lines, Targets(groups, target));
    SplitOnJoin("\n", safe);
    PreInner(safe);
  }

  /** The integers `a .. b - 1`. */
  function Interval(a: nat, b: nat): set<nat>
    decreases b
  {
    if b <= a then {} else Interval(a, b - 1) + {b - 1}
  }

  lemma {:induction false} IntervalMembers(a: nat, b: nat)
    ensures forall i: nat :: i in Interval(a, b) <==> a <= i < b
    decreases b
  {
    if a < b {
      IntervalMembers(a, b - 1);
    }
  }

  lemma {:induction false} IntervalSize(a: nat, b: nat)
    requires a <= b
    ensures |Interval(a, b)| == b - a
    decreases b
  {
    if a < b {
      IntervalSize(a, b - 1);
      IntervalSnoc(a, b);
    }
  }

  lemma IntervalSnoc(a: nat, b: nat)
    requires a < b
    ensures |Interval(a, b)| == |Interval(a, b - 1)| + 1
  {
    var below := Interval(a, b - 1);
    IntervalMembers(a, b - 1);
    assert b - 1 !in below;
    assert Interval(a, b) == below + {b - 1};
  }

  /** Marking an interval of slots changes only that interval. */
  lemma MarkedInterval(lines: seq<string>, a: nat, b: nat)
    requires a <= b <= |lines|
    ensures var safe := MarkedLines(lines, Interval(a, b));
      && safe[..a] == lines[..a]
      && safe[b..] == lines[b..]
      && forall j :: a <= j < b ==> safe[j] == Mark(lines[j])
  {
    IntervalMembers(a, b);
  }

  /** The slots owned by part `k` are the run that part occupies. */
  lemma PartTargets(parts: seq<seq<string>>, k: nat)
    requires k < |parts|
    ensures Targets(GroupsOf(OwnersOf(parts)), k) == Interval(Start(parts, k), Start(parts, k + 1))
  {
    PartRun(parts, k);
    OwnersOfLength(parts);
    TargetsOfRun(OwnersOf(parts), k, Start(parts, k), Start(parts, k + 1));
  }

  /** When the slots owned by `k` are exactly `a .. b - 1`, those are its targets. */
  lemma TargetsOfRun(owners: seq<nat>, k: nat, a: nat, b: nat)
    requires b <= |owners|
    requires forall i :: 0 <= i < |owners| ==> (owners[i] == k <==> a <= i < b)
    ensures Targets(GroupsOf(owners), k) == Interval(a, b)
  {
    IntervalMembers(a, b);
    forall i: nat ensures i in Targets(GroupsOf(owners), k) <==> a <= i < b {
      if i < |owners| {
        assert GroupsOf(owners)[i] == owners[i];
      }
    }
  }

  /** Marking the slots of part `k` marks exactly its own lines, in place and in order. */
  lemma PartCloze(parts: seq<seq<string>>, k: nat)
    requires k < |parts|
    ensures var flat := Flatten(parts);
      var safe := MarkedLines(flat, Targets(GroupsOf(OwnersOf(parts)), k));
      var a, b := Start(parts, k), Start(parts, k + 1);
      && a + |parts[k]| == b <= |flat| == |safe|
      && safe[..a] == flat[..a]
      && safe[b..] == flat[b..]
      && (forall j :: 0 <= j < |parts[k]| ==> safe[a + j] == Mark(parts[k][j]))
      && |Targets(GroupsOf(OwnersOf(parts)), k)| == |parts[k]|
  {
    var flat := Flatten(parts);
    var a, b := Start(parts, k), Start(parts, k + 1);
    PartRun(parts, k);
    PartTargets(parts, k);
    IntervalSize(a, b);
    MarkedInterval(flat, a, b);
    SliceElements(flat, a, b, parts[k]);
  }

  lemma SliceElements<T>(s: seq<T>, a: nat, b: nat, p: seq<T>)
    requires a <= b <= |s| && s[a..b] == p
    ensures forall j :: 0 <= j < |p| ==> s[a + j] == p[j]
  {
    forall j | 0 <= j < |p| ensures s[a + j] == p[j] {
      assert s[a + j] == s[a..b][j];
    }
  }

  /** On a wrapped stanza, the card for logical line `k` marks exactly that line's own
      segments, in place and in order, leaves every other visual line unchanged, and so
      holds as many markers as the line has segments. */
  lemma WrappedCloze(lines: seq<string>, width: int, k: nat)
    requires k < |lines|
    ensures var parts := SegmentsOf(lines, width);
      var wrapped := Wrapped(lines, width);
      var safe := MarkedLines(wrapped, Targets(GroupsOf(Owners(lines, width)), k));
      var a, b := Start(parts, k), Start(parts, k + 1);
      && a + |Segments(lines[k], width)| == b <= |wrapped| == |safe|
      && safe[..a] == wrapped[..a]
      && safe[b..] == wrapped[b..]
      && (forall j :: 0 <= j < |Segments(lines[k], width)| ==> safe[a + j] == Mark(Segments(lines[k], width)[j]))
      && |Targets(GroupsOf(Owners(lines, width)), k)| == |Segments(lines[k], width)|
  {
    PartCloze(SegmentsOf(lines, width), k);
  }
}
