/** Which lines of a document stand under a heading that announces legacy material. A heading's
    section lasts until the next heading of its own level or a shallower one. */
module HeadingStack {
  import opened Wrappers

  datatype Heading = Heading(line: int, level: nat, legacy: bool)

  /** What the heading pattern finds in one line of text. */
  datatype Mark = Mark(level: nat, legacy: bool)

  /** How many headings the scan looks at: it stops at the first one after the line. */
  function Seen(headings: seq<Heading>, line: int): (n: nat)
    ensures n <= |headings|
    ensures forall i :: 0 <= i < n ==> headings[i].line <= line
    ensures n < |headings| ==> headings[n].line > line
  {
    if headings == [] || headings[0].line > line then 0 else 1 + Seen(headings[1..], line)
  }

  /** Among the first `n` headings, nothing after heading `i` closes its section. */
  ghost predicate Open(headings: seq<Heading>, n: nat, i: nat)
    requires n <= |headings|
  {
    i < n && forall j :: i < j < n ==> headings[j].level > headings[i].level
  }

  ghost predicate LegacyOpen(headings: seq<Heading>, n: nat)
    requires n <= |headings|
  {
    exists i | 0 <= i < n :: Open(headings, n, i) && headings[i].legacy
  }

  /** The stack holds exactly the open headings, in order; `at` says where each comes from. */
  ghost predicate Holds(stack: seq<(nat, bool)>, at: seq<nat>, headings: seq<Heading>, n: nat)
    requires n <= |headings|
  {
    && |at| == |stack|
    && (forall k :: 0 <= k < |at| ==>
          Open(headings, n, at[k]) && stack[k] == (headings[at[k]].level, headings[at[k]].legacy))
    && (forall k, l :: 0 <= k < l < |at| ==> at[k] < at[l])
    && (forall i | 0 <= i < n :: Open(headings, n, i) ==> i in at)
  }

  /** Popping the headings that heading `n` closes and pushing it keeps the stack exact. */
  lemma PushHeading(stack: seq<(nat, bool)>, at: seq<nat>, keep: nat, headings: seq<Heading>, n: nat)
    requires n < |headings| && Holds(stack, at, headings, n) && keep <= |stack|
    requires forall k :: keep <= k < |stack| ==> stack[k].0 >= headings[n].level
    requires keep > 0 ==> stack[keep - 1].0 < headings[n].level
    ensures Holds(stack[..keep] + [(headings[n].level, headings[n].legacy)], at[..keep] + [n], headings, n + 1)
  {
    var at' := at[..keep] + [n];
    forall k | 0 <= k < keep
      ensures headings[at[k]].level < headings[n].level && Open(headings, n + 1, at[k])
    {
      assert Open(headings, n, at[k]) && Open(headings, n, at[keep - 1]);
      assert k < keep - 1 ==> at[k] < at[keep - 1] && headings[at[k]].level < headings[at[keep - 1]].level;
    }
    forall i | 0 <= i < n + 1 && Open(headings, n + 1, i)
      ensures i in at'
    {
      if i < n {
        assert Open(headings, n, i);
        var k :| 0 <= k < |at| && at[k] == i;
        assert k < keep;
        assert at'[k] == i;
      } else {
        assert at'[keep] == i;
      }
    }
  }

  /** `_is_legacy_section`. */
  method IsLegacySection(line: int, headings: seq<Heading>) returns (legacy: bool)
    ensures legacy <==> LegacyOpen(headings, Seen(headings, line))
  {
    var stack: seq<(nat, bool)> := [];
    ghost var at: seq<nat> := [];
    var n := 0;
    while n < |headings| && headings[n].line <= line
      invariant 0 <= n <= |headings|
      invariant forall i :: 0 <= i < n ==> headings[i].line <= line
      invariant Holds(stack, at, headings, n)
    {
      ghost var before := stack;
      stack := PopClosed(stack, headings[n].level);
      PushHeading(before, at, |stack|, headings, n);
      at := at[..|stack|] + [n];
      stack := stack + [(headings[n].level, headings[n].legacy)];
      n := n + 1;
    }
    SeenIs(headings, line, n);
    legacy := AnyLegacy(stack);
    StackAnswers(stack, at, headings, n);
  }

  /** The inner loop: the headings that one of this level closes go. */
  method PopClosed(stack: seq<(nat, bool)>, level: nat) returns (kept: seq<(nat, bool)>)
    ensures |kept| <= |stack| && kept == stack[..|kept|]
    ensures forall k :: |kept| <= k < |stack| ==> stack[k].0 >= level
    ensures |kept| > 0 ==> stack[|kept| - 1].0 < level
  {
    kept := stack;
    while |kept| > 0 && kept[|kept| - 1].0 >= level
      invariant |kept| <= |stack| && kept == stack[..|kept|]
      invariant forall k :: |kept| <= k < |stack| ==> stack[k].0 >= level
    {
      kept := kept[..|kept| - 1];
    }
  }

  method AnyLegacy(stack: seq<(nat, bool)>) returns (legacy: bool)
    ensures legacy <==> exists k :: 0 <= k < |stack| && stack[k].1
  {
    legacy := false;
    for k := 0 to |stack|
      invariant legacy <==> exists l :: 0 <= l < k && stack[l].1
    {
      legacy := legacy || stack[k].1;
    }
  }

  lemma StackAnswers(stack: seq<(nat, bool)>, at: seq<nat>, headings: seq<Heading>, n: nat)
    requires n <= |headings| && Holds(stack, at, headings, n)
    ensures LegacyOpen(headings, n) <==> exists k :: 0 <= k < |stack| && stack[k].1
  {
    if k :| 0 <= k < |stack| && stack[k].1 {
      assert Open(headings, n, at[k]) && headings[at[k]].legacy;
    }
  }

  lemma SeenIs(headings: seq<Heading>, line: int, n: nat)
    requires n <= |headings| && (forall i :: 0 <= i < n ==> headings[i].line <= line)
    requires n < |headings| ==> headings[n].line > line
    ensures Seen(headings, line) == n
  {
  }

  /** The section a line is in, said of the document's lines: some legacy heading stands at or
      before line `k`, and no heading of its level or a shallower one comes between. */
  ghost predicate InLegacySection(lines: seq<Option<Mark>>, k: nat)
    requires k < |lines|
  {
    exists i | 0 <= i <= k :: LegacyFrom(lines, i, k)
  }

  ghost predicate LegacyFrom(lines: seq<Option<Mark>>, i: nat, k: nat)
    requires i <= k < |lines|
  {
    Governs(lines, i, k) && lines[i].value.legacy
  }

  ghost predicate Governs(lines: seq<Option<Mark>>, i: nat, k: nat)
    requires i <= k < |lines|
  {
    && lines[i].Some?
    && forall j :: i < j <= k && lines[j].Some? ==> lines[j].value.level > lines[i].value.level
  }

  /** The headings of a document, each with its number counted from 1. */
  ghost predicate HeadingsOf(headings: seq<Heading>, lines: seq<Option<Mark>>) {
    && (forall a :: 0 <= a < |headings| ==> IsHeading(headings[a], lines))
    && (forall a, b :: 0 <= a < b < |headings| ==> headings[a].line < headings[b].line)
    && (forall i :: 0 <= i < |lines| && lines[i].Some? ==> HasLine(headings, i + 1))
  }

  ghost predicate IsHeading(h: Heading, lines: seq<Option<Mark>>) {
    1 <= h.line <= |lines| && lines[h.line - 1] == Some(Mark(h.level, h.legacy))
  }

  ghost predicate HasLine(headings: seq<Heading>, line: int) {
    exists a :: 0 <= a < |headings| && headings[a].line == line
  }

  lemma SeenIffNear(headings: seq<Heading>, lines: seq<Option<Mark>>, a: nat, line: int)
    requires HeadingsOf(headings, lines) && a < |headings|
    ensures a < Seen(headings, line) <==> headings[a].line <= line
  {
  }

  lemma LaterLine(headings: seq<Heading>, lines: seq<Option<Mark>>, a: nat, b: nat)
    requires HeadingsOf(headings, lines) && a < |headings| && b < |headings|
    requires headings[a].line < headings[b].line
    ensures a < b
  {
  }

  /** A heading between an open one and the line is deeper than the open one. */
  lemma Deeper(headings: seq<Heading>, lines: seq<Option<Mark>>, a: nat, k: nat, j: nat)
    requires HeadingsOf(headings, lines) && k < |lines| && a < |headings|
    requires Open(headings, Seen(headings, k + 1), a)
    requires headings[a].line - 1 < j <= k && lines[j].Some?
    ensures lines[j].value.level > headings[a].level
  {
    assert HasLine(headings, j + 1);
    var b :| 0 <= b < |headings| && headings[b].line == j + 1;
    assert IsHeading(headings[b], lines);
    SeenIffNear(headings, lines, b, k + 1);
    LaterLine(headings, lines, a, b);
  }

  lemma OpenThenGoverns(headings: seq<Heading>, lines: seq<Option<Mark>>, a: nat, k: nat)
    requires HeadingsOf(headings, lines) && k < |lines|
    requires a < Seen(headings, k + 1) && Open(headings, Seen(headings, k + 1), a)
    ensures IsHeading(headings[a], lines) && headings[a].line <= k + 1 && Governs(lines, headings[a].line - 1, k)
  {
    assert IsHeading(headings[a], lines);
    var i := headings[a].line - 1;
    forall j | i < j <= k && lines[j].Some?
      ensures lines[j].value.level > lines[i].value.level
    {
      Deeper(headings, lines, a, k, j);
    }
  }

  lemma GovernsThenOpen(headings: seq<Heading>, lines: seq<Option<Mark>>, a: nat, k: nat)
    requires HeadingsOf(headings, lines) && k < |lines| && a < |headings|
    requires 1 <= headings[a].line <= k + 1 && Governs(lines, headings[a].line - 1, k)
    ensures a < Seen(headings, k + 1) && Open(headings, Seen(headings, k + 1), a)
  {
    var n, i := Seen(headings, k + 1), headings[a].line - 1;
    SeenIffNear(headings, lines, a, k + 1);
    assert IsHeading(headings[a], lines);
    forall b | a < b < n
      ensures headings[b].level > headings[a].level
    {
      assert IsHeading(headings[b], lines) && headings[a].line < headings[b].line;
      var j := headings[b].line - 1;
      assert i < j <= k && lines[j].Some?;
    }
  }

  /** The heading stack equals its definition, for every document and line: some legacy heading is
      still open after the headings up to line `k` exactly when the line is in a legacy section. */
  lemma StackIsSection(headings: seq<Heading>, lines: seq<Option<Mark>>, k: nat)
    requires HeadingsOf(headings, lines) && k < |lines|
    ensures LegacyOpen(headings, Seen(headings, k + 1)) <==> InLegacySection(lines, k)
  {
    var n := Seen(headings, k + 1);
    if LegacyOpen(headings, n) {
      var a :| 0 <= a < n && Open(headings, n, a) && headings[a].legacy;
      OpenThenGoverns(headings, lines, a, k);
      assert LegacyFrom(lines, headings[a].line - 1, k);
    }
    if InLegacySection(lines, k) {
      var i :| 0 <= i <= k && LegacyFrom(lines, i, k);
      SectionThenOpen(headings, lines, i, k);
    }
  }

  lemma SectionThenOpen(headings: seq<Heading>, lines: seq<Option<Mark>>, i: nat, k: nat)
    requires HeadingsOf(headings, lines) && i <= k < |lines| && LegacyFrom(lines, i, k)
    ensures LegacyOpen(headings, Seen(headings, k + 1))
  {
    assert HasLine(headings, i + 1);
    var a :| 0 <= a < |headings| && headings[a].line == i + 1;
    assert IsHeading(headings[a], lines);
    GovernsThenOpen(headings, lines, a, k);
  }

  /** The first pass of `_violations_for_text`: the headings with their line numbers, from 1. */
  method CollectHeadings(lines: seq<Option<Mark>>) returns (headings: seq<Heading>)
    ensures HeadingsOf(headings, lines)
  {
    headings := [];
    for number := 0 to |lines|
      invariant HeadingsOf(headings, lines[..number])
    {
      ghost var before := headings;
      match lines[number] {
        case Some(found) => headings := headings + [Heading(number + 1, found.level, found.legacy)];
        case None =>
      }
      NextLine(before, headings, lines, number);
    }
    assert lines[..|lines|] == lines;
  }

  /** Both passes: which lines are skipped as legacy. `lines` has what the heading pattern found in
      each line. */
  method LegacyLines(lines: seq<Option<Mark>>) returns (skip: seq<bool>)
    ensures |skip| == |lines| && forall k :: 0 <= k < |lines| ==> (skip[k] <==> InLegacySection(lines, k))
  {
    var headings := CollectHeadings(lines);
    skip := [];
    for number := 0 to |lines|
      invariant |skip| == number && forall k :: 0 <= k < number ==> (skip[k] <==> InLegacySection(lines, k))
    {
      var legacy := IsLegacySection(number + 1, headings);
      StackIsSection(headings, lines, number);
      skip := skip + [legacy];
    }
  }

  lemma NextLine(before: seq<Heading>, after: seq<Heading>, lines: seq<Option<Mark>>, n: nat)
    requires n < |lines| && HeadingsOf(before, lines[..n])
    requires after == match lines[n] case Some(f) => before + [Heading(n + 1, f.level, f.legacy)] case None => before
    ensures HeadingsOf(after, lines[..n + 1])
  {
    var more := lines[..n + 1];
    forall a | 0 <= a < |after|
      ensures IsHeading(after[a], more)
    {
      if a < |before| {
        assert IsHeading(before[a], lines[..n]);
      }
    }
    forall i | 0 <= i < |more| && more[i].Some?
      ensures HasLine(after, i + 1)
    {
      if i < n {
        assert lines[..n][i] == more[i];
        assert HasLine(before, i + 1);
        var a :| 0 <= a < |before| && before[a].line == i + 1;
        assert after[a].line == i + 1;
      } else {
        assert after[|before|].line == i + 1;
      }
    }
    forall a, b | 0 <= a < b < |after|
      ensures after[a].line < after[b].line
    {
      assert IsHeading(before[a], lines[..n]);
    }
  }
}
