/** The raw-sample files, pinned down: which grouping they hold, what they are called, and that the
    publisher takes their names. */
module SampleFiles {
  import opened Wrappers
  import opened Chunker
  import Publisher

  // ---- The grouping itself ----

  /** Every group fits, and none could have taken the first line of the next. */
  ghost predicate Tight(groups: seq<seq<Line>>, limit: nat) {
    && groups != [] && (forall g :: g in groups ==> |Join(g)| <= limit)
    && (forall i :: 0 <= i < |groups| - 1 ==> TightAt(groups, i, limit))
  }

  predicate TightAt(groups: seq<seq<Line>>, i: nat, limit: nat)
    requires i + 1 < |groups|
  {
    groups[i] != [] && groups[i + 1] != [] && |Join(groups[i])| + |groups[i + 1][0]| > limit
  }

  lemma {:induction false} GreedyStarts(group: seq<Line>, lines: seq<Line>, limit: nat)
    ensures var groups := Greedy(group, lines, limit);
            groups != [] && |groups[0]| >= |group| && groups[0][..|group|] == group
    decreases |lines|
  {
    if lines != [] && !(group != [] && |Join(group)| + |lines[0]| > limit) {
      GreedyStarts(group + [lines[0]], lines[1..], limit);
      var r := Greedy(group, lines, limit)[0];
      assert r[..|group|] == r[..|group| + 1][..|group|];
    }
  }

  lemma {:induction false} GreedyIsTight(group: seq<Line>, lines: seq<Line>, limit: nat)
    requires |Join(group)| <= limit && Fits(lines, limit)
    ensures Tight(Greedy(group, lines, limit), limit)
    decreases |lines|
  {
    GreedyStaysWithin(group, lines, limit);
    if lines != [] {
      assert lines[0] in lines;
      JoinSnoc(group, lines[0]);
      JoinSnoc([], lines[0]);
      assert [] + [lines[0]] == [lines[0]];
      if group != [] && |Join(group)| + |lines[0]| > limit {
        GreedyIsTight([lines[0]], lines[1..], limit);
        GreedyStarts([lines[0]], lines[1..], limit);
        TightCons(group, Greedy([lines[0]], lines[1..], limit), limit);
      } else {
        if group == [] { assert group + [lines[0]] == [lines[0]]; }
        GreedyIsTight(group + [lines[0]], lines[1..], limit);
      }
    }
  }

  lemma TightCons(group: seq<Line>, rest: seq<seq<Line>>, limit: nat)
    requires Tight(rest, limit) && rest[0] != [] && group != [] && |Join(group)| <= limit
    requires |Join(group)| + |rest[0][0]| > limit
    ensures Tight([group] + rest, limit)
  {
    var groups := [group] + rest;
    forall i | 0 <= i < |groups| - 1 ensures TightAt(groups, i, limit) {
      if i > 0 { assert TightAt(rest, i - 1, limit); }
    }
  }

  lemma TightTail(groups: seq<seq<Line>>, limit: nat)
    requires Tight(groups, limit) && |groups| > 1
    ensures Tight(groups[1..], limit) && TightAt(groups, 0, limit)
  {
    forall i | 0 <= i < |groups[1..]| - 1 ensures TightAt(groups[1..], i, limit) {
      assert TightAt(groups, i + 1, limit);
    }
  }

  lemma {:induction false} JoinGrows(a: seq<Line>, b: seq<Line>)
    ensures |Join(a + b)| >= |Join(a)|
    decreases |b|
  {
    if b == [] {
      assert a + b == a;
    } else {
      JoinGrows(a, b[..|b| - 1]);
      assert (a + b)[..|a + b| - 1] == a + b[..|b| - 1];
    }
  }

  lemma SplitOff(group: seq<Line>, lines: seq<Line>, g: seq<Line>, rest: seq<Line>)
    requires group + lines == g + rest && |g| >= |group| && g[..|group|] == group
    ensures lines == g[|group|..] + rest
  {
    assert lines == (group + lines)[|group|..];
    assert g + rest == group + (g[|group|..] + rest);
  }

  lemma OneMore(group: seq<Line>, g: seq<Line>)
    requires |g| > |group| && g[..|group|] == group
    ensures g[..|group| + 1] == group + [g[|group|]]
  {
  }

  lemma NextFits(group: seq<Line>, g: seq<Line>)
    requires |g| > |group| && g[..|group|] == group
    ensures |Join(group)| + |g[|group|]| <= |Join(g)|
  {
    var k := |group| + 1;
    OneMore(group, g);
    assert g == g[..k] + g[k..];
    JoinGrows(g[..k], g[k..]);
    JoinSnoc(group, g[|group|]);
  }

  /** A group that goes on takes the next line. */
  lemma TakesNext(group: seq<Line>, lines: seq<Line>, g: seq<Line>, rest: seq<Line>)
    requires g + rest == group + lines && |g| > |group| && g[..|group|] == group
    ensures lines != [] && lines[0] == g[|group|]
    ensures g + rest == (group + [lines[0]]) + lines[1..]
  {
    SplitOff(group, lines, g, rest);
    assert lines == [lines[0]] + lines[1..];
    Shift(group, lines[0], lines[1..]);
  }

  /** A group that ends is closed: the next line starts the second group, and did not fit. */
  lemma ClosesGroup(lines: seq<Line>, groups: seq<seq<Line>>, limit: nat)
    requires Tight(groups, limit) && Concat(groups) == groups[0] + lines && lines != []
    ensures |groups| > 1 && Tight(groups[1..], limit) && groups[1] != [] && groups[1][0] == lines[0]
    ensures groups[0] != [] && |Join(groups[0])| + |lines[0]| > limit && Concat(groups[1..]) == lines
  {
    SplitOff(groups[0], lines, groups[0], Concat(groups[1..]));
    assert groups[0][|groups[0]|..] + Concat(groups[1..]) == Concat(groups[1..]);
    TightTail(groups, limit);
  }

  /** A tight grouping of the lines that goes on from `group` is the greedy one. */
  lemma {:induction false} TightIsGreedy(group: seq<Line>, lines: seq<Line>, groups: seq<seq<Line>>, limit: nat)
    requires Tight(groups, limit) && Concat(groups) == group + lines
    requires |groups[0]| >= |group| && groups[0][..|group|] == group
    ensures Greedy(group, lines, limit) == groups
    decreases |lines|
  {
    if |groups[0]| > |group| {
      assert groups[0] in groups;
      TakesNext(group, lines, groups[0], Concat(groups[1..]));
      NextFits(group, groups[0]);
      OneMore(group, groups[0]);
      TightIsGreedy(group + [lines[0]], lines[1..], groups, limit);
    } else if lines != [] {
      assert groups[0] == groups[0][..|group|];
      ClosesGroup(lines, groups, limit);
      assert [lines[0]] + lines[1..] == lines && groups[1][..1] == [lines[0]];
      TightIsGreedy([lines[0]], lines[1..], groups[1..], limit);
      assert groups == [group] + groups[1..];
    } else {
      assert groups[0] == groups[0][..|group|];
      NothingAfter(groups, limit);
    }
  }

  lemma NothingAfter(groups: seq<seq<Line>>, limit: nat)
    requires Tight(groups, limit) && |Concat(groups)| == |groups[0]|
    ensures groups == [groups[0]]
  {
    if |groups| > 1 {
      assert TightAt(groups, 0, limit);
      assert |Concat(groups)| == |groups[0]| + |Concat(groups[1..])|;
      assert false;
    }
  }

  /** The greedy grouping is the only one that loses nothing, fits, and closes a file only when the next
      line would not have fitted. */
  lemma GreedyIff(lines: seq<Line>, groups: seq<seq<Line>>, limit: nat)
    requires Fits(lines, limit)
    ensures groups == Greedy([], lines, limit) <==> Concat(groups) == lines && Tight(groups, limit)
  {
    assert [] + lines == lines;
    GreedyKeepsLines([], lines, limit);
    GreedyIsTight([], lines, limit);
    if Concat(groups) == lines && Tight(groups, limit) {
      TightIsGreedy([], lines, groups, limit);
    }
  }

  /** Chunking fails exactly on a line that is longer than a whole file may be; otherwise file `i` has
      name `i` and the joined lines of group `i` of the only tight grouping. */
  lemma ChunkedIff(lines: seq<Line>, limit: nat, files: seq<File>)
    ensures Chunked(lines, limit).None? <==> exists l :: l in lines && |l| > limit
    ensures Chunked(lines, limit) == Some(files) <==>
            && (forall l :: l in lines ==> |l| <= limit)
            && exists groups :: Concat(groups) == lines && Tight(groups, limit) && Holding(files, groups)
  {
    if Fits(lines, limit) {
      GreedyIff(lines, Greedy([], lines, limit), limit);
      if groups :| Concat(groups) == lines && Tight(groups, limit) && Holding(files, groups) {
        GreedyIff(lines, groups, limit);
        assert files == FilesOf(groups, 0);
      }
      if Chunked(lines, limit) == Some(files) {
        assert Holding(files, Greedy([], lines, limit));
      }
    }
  }

  ghost predicate Holding(files: seq<File>, groups: seq<seq<Line>>) {
    |files| == |groups| && forall i :: 0 <= i < |files| ==> files[i] == File(NameOf(i), Join(groups[i]))
  }

  predicate Digits(s: string) { forall i :: 0 <= i < |s| ==> '0' <= s[i] <= '9' }

  lemma {:induction false} DecimalShape(n: nat)
    ensures var s := Decimal(n);
            && s != "" && Digits(s) && (n >= 10 ==> |s| >= 2 && s[0] != '0') && (n >= 100 ==> |s| >= 3)
            && (n < 100 ==> |s| <= 2) && (n < 10 ==> |s| == 1)
  {
    if n >= 10 { DecimalShape(n / 10); }
    if 1 <= n < 10 { assert Decimal(n)[0] == Digit(n); }
  }

  /** The name of file `i`: the first has no number, and any other its number in at least three digits,
      with zeros in front only to make it three. */
  lemma NameShape(i: nat)
    ensures i == 0 ==> NameOf(i) == "raw_samples.jsonl"
    ensures i > 0 ==>
              exists p :: NameOf(i) == "raw_samples-" + p + ".jsonl" && DecimalValue(p) == i && Digits(p)
                          && |p| >= 3 && (|p| > 3 ==> p[0] != '0')
  {
    if i > 0 {
      PaddedReads(i);
      DecimalShape(i);
      var p := Padded(i);
      assert NameOf(i) == "raw_samples-" + p + ".jsonl";
    }
  }

  lemma NoSlashInDigits(p: string)
    requires Digits(p)
    ensures '/' !in p && '\\' !in p
  {
  }

  lemma NoSlashAround()
    ensures '/' !in "raw_samples-" && '\\' !in "raw_samples-" && '/' !in ".jsonl" && '\\' !in ".jsonl"
  {
  }

  lemma SafeNumbered(p: string)
    requires Digits(p)
    ensures Publisher.SafeName("raw_samples-" + p + ".jsonl")
  {
    NoSlashInDigits(p);
    NoSlashAround();
    var name := "raw_samples-" + p + ".jsonl";
    assert name[..11] == "raw_samples-"[..11] == "raw_samples";
  }

  lemma NameIsSafe(i: nat)
    ensures Publisher.SafeName(NameOf(i))
  {
    NameShape(i);
    if i > 0 {
      var p :| NameOf(i) == "raw_samples-" + p + ".jsonl" && Digits(p);
      SafeNumbered(p);
    } else {
      assert "raw_samples.jsonl"[..11] == "raw_samples";
    }
  }

  /** Whatever was chunked can be published, whatever its contents. */
  lemma ChunksHaveLegalNames(lines: seq<Line>, limit: nat, chunks: seq<Publisher.Entry>)
    requires Lines(lines) && Chunked(lines, limit).Some?
    requires |chunks| == |Chunked(lines, limit).value|
    requires forall i :: 0 <= i < |chunks| ==> chunks[i].name == Chunked(lines, limit).value[i].name
    ensures Publisher.LegalNames(chunks)
  {
    var files := Chunked(lines, limit).value;
    ChunkingIsExact(lines, limit);
    forall i | 0 <= i < |chunks| ensures Publisher.SafeName(chunks[i].name) {
      NameIsSafe(i);
      assert files[i].name == NameOf(i);
    }
  }
}
