/** Splitting encoded samples into raw-sample files under a byte limit. Redaction and JSON encoding
    are not modelled: a sample is its encoded line, which ends in its only newline. */
module Chunker {
  import opened Wrappers

  type Byte = bv8
  type Line = seq<Byte>

  const NEWLINE: Byte := 10

  datatype File = File(name: string, content: seq<Byte>)
  datatype Declaration = Declaration(name: string, bytes: nat, sampleCount: nat)

  function Join(lines: seq<Line>): (s: seq<Byte>)
    ensures lines == [] ==> s == []
  {
    if lines == [] then [] else Join(lines[..|lines| - 1]) + lines[|lines| - 1]
  }

  function Concat(groups: seq<seq<Line>>): seq<Line> {
    if groups == [] then [] else groups[0] + Concat(groups[1..])
  }

  /** A sample's line: exactly one newline, at the end. */
  predicate IsLine(l: Line) {
    l != [] && forall i :: 0 <= i < |l| ==> (l[i] == NEWLINE <==> i == |l| - 1)
  }

  ghost predicate Lines(lines: seq<Line>) { forall l :: l in lines ==> IsLine(l) }

  ghost predicate Fits(lines: seq<Line>, limit: nat) { forall l :: l in lines ==> |l| <= limit }

  /** The greedy grouping: `group` is the file being filled. */
  function Greedy(group: seq<Line>, lines: seq<Line>, limit: nat): seq<seq<Line>>
    decreases |lines|
  {
    if lines == [] then [group]
    else if group != [] && |Join(group)| + |lines[0]| > limit then [group] + Greedy([lines[0]], lines[1..], limit)
    else Greedy(group + [lines[0]], lines[1..], limit)
  }

  lemma JoinSnoc(group: seq<Line>, l: Line)
    ensures Join(group + [l]) == Join(group) + l
  {
    assert (group + [l])[..|group|] == group;
  }

  // ---- Nothing lost, no line split, no file too long ----

  lemma ConcatCons(g: seq<Line>, rest: seq<seq<Line>>)
    ensures Concat([g] + rest) == g + Concat(rest)
  {
    assert ([g] + rest)[1..] == rest;
  }

  lemma Shift(group: seq<Line>, l: Line, t: seq<Line>)
    ensures group + ([l] + t) == (group + [l]) + t
  {
  }

  lemma JoinOne(l: Line)
    ensures Join([l]) == l
  {
    JoinSnoc([], l);
    assert [] + [l] == [l];
  }

  /** The greedy rule on its next line. */
  lemma GreedyNext(group: seq<Line>, l: Line, t: seq<Line>, limit: nat)
    ensures Greedy(group, [l] + t, limit)
            == if group != [] && |Join(group)| + |l| > limit then [group] + Greedy([l], t, limit)
               else Greedy(group + [l], t, limit)
  {
    assert ([l] + t)[1..] == t;
  }

  lemma {:induction false} GreedyKeepsLines(group: seq<Line>, lines: seq<Line>, limit: nat)
    ensures Concat(Greedy(group, lines, limit)) == group + lines
    decreases |lines|
  {
    if lines == [] {
      ConcatCons(group, []);
      assert [group] + [] == [group];
    } else {
      var l, t := lines[0], lines[1..];
      assert lines == [l] + t;
      GreedyNext(group, l, t, limit);
      Shift(group, l, t);
      GreedyKeepsLines([l], t, limit);
      GreedyKeepsLines(group + [l], t, limit);
      ConcatCons(group, Greedy([l], t, limit));
    }
  }

  lemma {:induction false} GreedyStaysWithin(group: seq<Line>, lines: seq<Line>, limit: nat)
    requires |Join(group)| <= limit && Fits(lines, limit)
    ensures forall g :: g in Greedy(group, lines, limit) ==> |Join(g)| <= limit
    decreases |lines|
  {
    if lines != [] {
      var l, t := lines[0], lines[1..];
      assert lines == [l] + t && l in lines;
      GreedyNext(group, l, t, limit);
      JoinOne(l);
      JoinSnoc(group, l);
      if group != [] && |Join(group)| + |l| > limit {
        GreedyStaysWithin([l], t, limit);
      } else {
        if group == [] { assert group + [l] == [l]; }
        GreedyStaysWithin(group + [l], t, limit);
      }
    }
  }

  // ---- Optimality ----

  /** How many more files the greedy rule starts, from `c` bytes in the current one. */
  function Cuts(c: nat, lines: seq<Line>, limit: nat): nat
    decreases |lines|
  {
    if lines == [] then 0
    else if c + |lines[0]| > limit then 1 + Cuts(|lines[0]|, lines[1..], limit)
    else Cuts(c + |lines[0]|, lines[1..], limit)
  }

  lemma {:induction false} GreedyCount(group: seq<Line>, lines: seq<Line>, limit: nat)
    requires Fits(lines, limit)
    ensures |Greedy(group, lines, limit)| == 1 + Cuts(|Join(group)|, lines, limit)
    decreases |lines|
  {
    if lines != [] {
      assert lines[0] in lines;
      JoinSnoc(group, lines[0]);
      JoinOne(lines[0]);
      if group != [] && |Join(group)| + |lines[0]| > limit {
        GreedyCount([lines[0]], lines[1..], limit);
      } else {
        GreedyCount(group + [lines[0]], lines[1..], limit);
      }
    }
  }

  /** Starting a fresh file right now costs at most one file, and a fuller file never helps. */
  lemma {:induction false} FresherIsBetter(c: nat, c': nat, lines: seq<Line>, limit: nat)
    requires c <= c' && Fits(lines, limit)
    ensures Cuts(c, lines, limit) <= Cuts(c', lines, limit) <= 1 + Cuts(0, lines, limit)
    decreases |lines|
  {
    if lines != [] {
      assert lines[0] in lines;
      var n, rest := |lines[0]|, lines[1..];
      FresherIsBetter(n, c' + n, rest, limit);
      FresherIsBetter(n, c + n, rest, limit);
      FresherIsBetter(c + n, c' + n, rest, limit);
      FresherIsBetter(0, n, rest, limit);
    }
  }

  lemma {:induction false} CutsSkip(c: nat, part: seq<Line>, rest: seq<Line>, limit: nat)
    requires c + |Join(part)| <= limit
    ensures Cuts(c, part + rest, limit) == Cuts(c + |Join(part)|, rest, limit)
    decreases |part|
  {
    if part == [] {
      assert part + rest == rest;
    } else {
      var init, last := part[..|part| - 1], part[|part| - 1];
      assert part + rest == init + ([last] + rest);
      CutsSkip(c, init, [last] + rest, limit);
      assert ([last] + rest)[1..] == rest;
    }
  }

  lemma {:induction false} EverySplitCuts(parts: seq<seq<Line>>, limit: nat)
    requires parts != [] && Fits(Concat(parts), limit)
    requires forall p :: p in parts ==> |Join(p)| <= limit
    ensures 1 + Cuts(0, Concat(parts), limit) <= |parts|
    decreases |parts|
  {
    var p, more := parts[0], parts[1..];
    var rest := Concat(more);
    assert Concat(parts) == p + rest;
    assert p in parts;
    CutsSkip(0, p, rest, limit);
    FitsTail(p, rest, limit);
    if more != [] {
      EverySplitCuts(more, limit);
      FresherIsBetter(0, |Join(p)|, rest, limit);
    }
  }

  lemma FitsTail(a: seq<Line>, b: seq<Line>, limit: nat)
    requires Fits(a + b, limit)
    ensures Fits(b, limit)
  {
    forall l | l in b ensures |l| <= limit { assert l in a + b; }
  }

  /** No split of the lines into consecutive files within the limit uses fewer files. */
  lemma GreedyIsOptimal(lines: seq<Line>, parts: seq<seq<Line>>, limit: nat)
    requires Fits(lines, limit)
    requires parts != [] && Concat(parts) == lines && forall p :: p in parts ==> |Join(p)| <= limit
    ensures |Greedy([], lines, limit)| <= |parts|
  {
    GreedyCount([], lines, limit);
    EverySplitCuts(parts, limit);
  }

  // ---- File names ----

  function Digit(d: nat): (c: char)
    requires d < 10
    ensures DigitValue(c) == d
  {
    '0' + d as char
  }

  function Decimal(n: nat): string {
    if n < 10 then [Digit(n)] else Decimal(n / 10) + [Digit(n % 10)]
  }

  /** `{n:03d}` */
  function Padded(n: nat): string {
    if n < 10 then "00" + Decimal(n) else if n < 100 then "0" + Decimal(n) else Decimal(n)
  }

  function DigitValue(c: char): nat { if '0' <= c <= '9' then (c - '0') as nat else 0 }

  function DecimalValue(s: string): nat {
    if s == "" then 0 else 10 * DecimalValue(s[..|s| - 1]) + DigitValue(s[|s| - 1])
  }

  lemma {:induction false} DecimalReads(n: nat)
    ensures DecimalValue(Decimal(n)) == n
  {
    if n < 10 {
      SnocDigit("", n);
      assert "" + [Digit(n)] == [Digit(n)];
    } else {
      DecimalReads(n / 10);
      SnocDigit(Decimal(n / 10), n % 10);
    }
  }

  lemma SnocDigit(s: string, d: nat)
    requires d < 10
    ensures DecimalValue(s + [Digit(d)]) == 10 * DecimalValue(s) + d
  {
    assert (s + [Digit(d)])[..|s|] == s;
  }

  lemma {:induction false} LeadingZeros(z: string, s: string)
    requires forall i :: 0 <= i < |z| ==> z[i] == '0'
    ensures DecimalValue(z + s) == DecimalValue(s)
    decreases |z| + |s|
  {
    if s != "" {
      LeadingZeros(z, s[..|s| - 1]);
      assert (z + s)[..|z + s| - 1] == z + s[..|s| - 1];
    } else if z != "" {
      LeadingZeros(z[..|z| - 1], "");
      assert (z + s)[..|z| - 1] == z[..|z| - 1] + "";
    }
  }

  function NameOf(i: nat): string {
    if i == 0 then "raw_samples.jsonl" else "raw_samples-" + Padded(i) + ".jsonl"
  }

  lemma PaddedReads(n: nat)
    ensures DecimalValue(Padded(n)) == n
  {
    DecimalReads(n);
    LeadingZeros("00", Decimal(n));
    LeadingZeros("0", Decimal(n));
  }

  /** The number can be read back from the name. */
  lemma NumberIn(i: nat)
    ensures var a := NameOf(i);
            |a| >= 17 && if i == 0 then a[11] == '.' else a[11] == '-' && |a| >= 18 && DecimalValue(a[12..|a| - 6]) == i
  {
    if i > 0 {
      PaddedReads(i);
      var a := NameOf(i);
      assert a[12..|a| - 6] == Padded(i);
    }
  }

  lemma NamesDiffer(i: nat, j: nat)
    requires i != j
    ensures NameOf(i) != NameOf(j)
  {
    NumberIn(i);
    NumberIn(j);
  }

  // ---- Declared counts ----

  function CountNewlines(s: seq<Byte>): nat {
    if s == [] then 0 else CountNewlines(s[..|s| - 1]) + (if s[|s| - 1] == NEWLINE then 1 else 0)
  }

  lemma {:induction false} CountSplit(a: seq<Byte>, b: seq<Byte>)
    ensures CountNewlines(a + b) == CountNewlines(a) + CountNewlines(b)
    decreases |b|
  {
    if b == [] {
      assert a + b == a;
    } else {
      CountSplit(a, b[..|b| - 1]);
      assert (a + b)[..|a + b| - 1] == a + b[..|b| - 1];
    }
  }

  lemma {:induction false} NoNewlines(s: seq<Byte>)
    requires NEWLINE !in s
    ensures CountNewlines(s) == 0
  {
    if s != [] { NoNewlines(s[..|s| - 1]); }
  }

  lemma {:induction false} CountLines(lines: seq<Line>)
    requires Lines(lines)
    ensures CountNewlines(Join(lines)) == |lines|
  {
    if lines != [] {
      var init, last := lines[..|lines| - 1], lines[|lines| - 1];
      assert last in lines && IsLine(last);
      CountLines(init);
      CountSplit(Join(init), last);
      NoNewlines(last[..|last| - 1]);
    }
  }

  function Total(ds: seq<Declaration>): nat {
    if ds == [] then 0 else ds[0].sampleCount + Total(ds[1..])
  }

  function Declare(f: File): Declaration { Declaration(f.name, |f.content|, CountNewlines(f.content)) }

  function DeclareAll(files: seq<File>): (ds: seq<Declaration>)
    ensures |ds| == |files|
  {
    seq(|files|, i requires 0 <= i < |files| => Declare(files[i]))
  }

  // ---- The files as a whole ----

  function FilesOf(groups: seq<seq<Line>>, first: nat): (files: seq<File>)
    ensures |files| == |groups|
  {
    seq(|groups|, i requires 0 <= i < |groups| => File(NameOf(first + i), Join(groups[i])))
  }

  /** What both chunkers produce: the greedy grouping, named in order; nothing if a line is longer
      than a whole file may be. */
  ghost function Chunked(lines: seq<Line>, limit: nat): Option<seq<File>> {
    if Fits(lines, limit) then Some(FilesOf(Greedy([], lines, limit), 0)) else None
  }

  lemma {:induction false} CountsAddUp(groups: seq<seq<Line>>, first: nat)
    requires Lines(Concat(groups))
    ensures Total(DeclareAll(FilesOf(groups, first))) == |Concat(groups)|
    decreases |groups|
  {
    if groups != [] {
      var more := groups[1..];
      assert forall l :: l in groups[0] ==> l in Concat(groups);
      assert forall l :: l in Concat(more) ==> l in Concat(groups);
      CountLines(groups[0]);
      CountsAddUp(more, first + 1);
      DeclareTail(groups, first);
    }
  }

  lemma DeclareTail(groups: seq<seq<Line>>, first: nat)
    requires groups != []
    ensures var ds := DeclareAll(FilesOf(groups, first));
            ds[0] == Declare(File(NameOf(first), Join(groups[0])))
            && ds[1..] == DeclareAll(FilesOf(groups[1..], first + 1))
  {
    var ds, more := DeclareAll(FilesOf(groups, first)), DeclareAll(FilesOf(groups[1..], first + 1));
    forall i | 0 <= i < |more| ensures ds[i + 1] == more[i] {
      assert first + (i + 1) == (first + 1) + i && groups[i + 1] == groups[1..][i];
    }
  }

  /** Chunking is exact: some grouping of whole lines, in order, with nothing lost or added; every
      file within the limit; distinct names; declared counts that sum to the sample count. */
  lemma ChunkingIsExact(lines: seq<Line>, limit: nat)
    requires Lines(lines) && Chunked(lines, limit).Some?
    ensures var files := Chunked(lines, limit).value;
            var groups := Greedy([], lines, limit);
            && Concat(groups) == lines && |files| == |groups|
            && (forall i :: 0 <= i < |files| ==> files[i].content == Join(groups[i]) && |files[i].content| <= limit)
            && (forall i :: 0 <= i < |files| ==>
                  DeclareAll(files)[i] == Declaration(files[i].name, |files[i].content|, |groups[i]|))
            && (forall i, j :: 0 <= i < j < |files| ==> files[i].name != files[j].name)
            && Total(DeclareAll(files)) == |lines|
  {
    var groups := Greedy([], lines, limit);
    GreedyKeepsLines([], lines, limit);
    assert [] + lines == lines;
    GreedyStaysWithin([], lines, limit);
    CountsAddUp(groups, 0);
    DeclaredOneByOne(groups);
    forall i, j | 0 <= i < j < |groups| ensures NameOf(i) != NameOf(j) { NamesDiffer(i, j); }
  }

  lemma DeclaredOneByOne(groups: seq<seq<Line>>)
    requires Lines(Concat(groups))
    ensures forall i :: 0 <= i < |groups| ==>
              DeclareAll(FilesOf(groups, 0))[i] == Declaration(NameOf(i), |Join(groups[i])|, |groups[i]|)
  {
    forall i | 0 <= i < |groups|
      ensures DeclareAll(FilesOf(groups, 0))[i] == Declaration(NameOf(i), |Join(groups[i])|, |groups[i]|)
    {
      InConcat(groups, i);
      CountLines(groups[i]);
    }
  }

  lemma {:induction false} InConcat(groups: seq<seq<Line>>, i: nat)
    requires i < |groups|
    ensures forall l :: l in groups[i] ==> l in Concat(groups)
  {
    if i > 0 { InConcat(groups[1..], i - 1); }
  }

  // ---- The two chunkers ----

  /** After `i` lines: the closed groups and the open one are the greedy ones so far. */
  ghost predicate Filling(lines: seq<Line>, limit: nat, i: nat, groups: seq<seq<Line>>, group: seq<Line>)
    requires i <= |lines|
  {
    && Fits(lines[..i], limit)
    && groups + Greedy(group, lines[i..], limit) == Greedy([], lines, limit)
    && (group == [] <==> i == 0) && (i == 0 ==> groups == [])
  }

  lemma FillStart(lines: seq<Line>, limit: nat)
    ensures Filling(lines, limit, 0, [], [])
  {
    assert lines[0..] == lines;
    assert [] + Greedy([], lines, limit) == Greedy([], lines, limit);
  }

  lemma FillMore(lines: seq<Line>, limit: nat, i: nat, groups: seq<seq<Line>>, group: seq<Line>)
    requires i < |lines| && |lines[i]| <= limit && Filling(lines, limit, i, groups, group)
    ensures if group != [] && |Join(group)| + |lines[i]| > limit
            then Filling(lines, limit, i + 1, groups + [group], [lines[i]])
            else Filling(lines, limit, i + 1, groups, group + [lines[i]])
  {
    FitsMore(lines, limit, i);
    GreedyStep(group, lines, limit, i);
    if group != [] && |Join(group)| + |lines[i]| > limit {
      var rest := Greedy([lines[i]], lines[i + 1..], limit);
      assert groups + ([group] + rest) == (groups + [group]) + rest;
    }
  }

  lemma FitsMore(lines: seq<Line>, limit: nat, i: nat)
    requires i < |lines| && |lines[i]| <= limit && Fits(lines[..i], limit)
    ensures Fits(lines[..i + 1], limit)
  {
    assert lines[..i + 1] == lines[..i] + [lines[i]];
  }

  lemma GreedyStep(group: seq<Line>, lines: seq<Line>, limit: nat, i: nat)
    requires i < |lines|
    ensures Greedy(group, lines[i..], limit) ==
            if group != [] && |Join(group)| + |lines[i]| > limit
            then [group] + Greedy([lines[i]], lines[i + 1..], limit)
            else Greedy(group + [lines[i]], lines[i + 1..], limit)
  {
    assert lines[i..][1..] == lines[i + 1..];
  }

  lemma FillEnd(lines: seq<Line>, limit: nat, groups: seq<seq<Line>>, group: seq<Line>)
    requires Filling(lines, limit, |lines|, groups, group)
    ensures Chunked(lines, limit) == Some(FilesOf(groups + [group], 0))
  {
    assert lines[..|lines|] == lines;
    assert lines[|lines|..] == [];
  }

  lemma FileSnoc(groups: seq<seq<Line>>, group: seq<Line>)
    ensures FilesOf(groups + [group], 0) == FilesOf(groups, 0) + [File(NameOf(|groups|), Join(group))]
  {
  }

  /** The contents of a grouping, file by file. */
  function Contents(groups: seq<seq<Line>>): (cs: seq<seq<Byte>>)
    ensures |cs| == |groups|
  {
    seq(|groups|, i requires 0 <= i < |groups| => Join(groups[i]))
  }

  lemma ContentsSnoc(groups: seq<seq<Line>>, group: seq<Line>)
    ensures Contents(groups + [group]) == Contents(groups) + [Join(group)]
  {
  }

  /** The open file is empty only before the first line. */
  lemma JoinEmpty(group: seq<Line>, line: Line)
    requires line != []
    ensures Join(group + [line]) == Join(group) + line && Join(group + [line]) != [] && Join([line]) == line
  {
    JoinSnoc(group, line);
    JoinSnoc([], line);
    assert [] + [line] == [line];
  }

  /** `raw_sample_chunks`: contents first, then names. */
  method RawSampleChunks(lines: seq<Line>, limit: nat) returns (r: Option<seq<File>>)
    requires Lines(lines)
    ensures r == Chunked(lines, limit)
  {
    var chunks: seq<seq<Byte>> := [];
    var current: seq<Byte> := [];
    ghost var groups: seq<seq<Line>> := [];
    ghost var group: seq<Line> := [];
    FillStart(lines, limit);
    for i := 0 to |lines|
      invariant Filling(lines, limit, i, groups, group)
      invariant chunks == Contents(groups) && current == Join(group) && (current == [] <==> group == [])
    {
      var line := lines[i];
      assert line in lines && IsLine(line);
      if |line| > limit { return None; }
      FillMore(lines, limit, i, groups, group);
      JoinEmpty(group, line);
      if current != [] && |current| + |line| > limit {
        ContentsSnoc(groups, group);
        groups, group := groups + [group], [line];
        chunks, current := chunks + [current], [];
      } else {
        group := group + [line];
      }
      current := current + line;
    }
    FillEnd(lines, limit, groups, group);
    ContentsSnoc(groups, group);
    if current != [] || chunks == [] {
      chunks := chunks + [current];
    }
    var files := Named(chunks, groups + [group]);
    return Some(files);
  }

  method Named(chunks: seq<seq<Byte>>, ghost groups: seq<seq<Line>>) returns (files: seq<File>)
    requires chunks == Contents(groups)
    ensures files == FilesOf(groups, 0)
  {
    files := [];
    for i := 0 to |chunks|
      invariant |files| == i && forall k :: 0 <= k < i ==> files[k] == File(NameOf(k), chunks[k])
    {
      files := files + [File(NameOf(i), chunks[i])];
    }
  }

  /** `_raw_chunks`: names as the files are closed. Same result for the same limit. */
  method RawChunks(lines: seq<Line>, limit: nat) returns (r: Option<seq<File>>)
    requires Lines(lines)
    ensures r == Chunked(lines, limit)
  {
    var chunks: seq<File> := [];
    var current: seq<Byte> := [];
    ghost var groups: seq<seq<Line>> := [];
    ghost var group: seq<Line> := [];
    FillStart(lines, limit);
    for i := 0 to |lines|
      invariant Filling(lines, limit, i, groups, group)
      invariant chunks == FilesOf(groups, 0) && current == Join(group) && (current == [] <==> group == [])
    {
      var line := lines[i];
      assert line in lines && IsLine(line);
      if |line| > limit { return None; }
      FillMore(lines, limit, i, groups, group);
      JoinEmpty(group, line);
      if current != [] && |current| + |line| > limit {
        FileSnoc(groups, group);
        chunks := chunks + [File(NameOf(|chunks|), current)];
        groups, group, current := groups + [group], [line], [];
      } else {
        group := group + [line];
      }
      current := current + line;
    }
    FillEnd(lines, limit, groups, group);
    FileSnoc(groups, group);
    if current != [] || chunks == [] {
      chunks := chunks + [File(NameOf(|chunks|), current)];
    }
    r := Some(chunks);
  }

  /** `_raw_sample_declarations`: one entry per file, in order. */
  method Declarations(files: seq<File>) returns (ds: seq<Declaration>)
    ensures ds == DeclareAll(files)
  {
    ds := [];
    for i := 0 to |files|
      invariant |ds| == i && forall k :: 0 <= k < i ==> ds[k] == Declare(files[k])
    {
      ds := ds + [Declare(files[i])];
    }
  }
}
