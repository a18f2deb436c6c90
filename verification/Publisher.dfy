/** Publishing one benchmark generation: stage it, move the previous one aside, move the stage into
    place, restore on failure. Every system call may raise; the recorded history holds the
    directories after every single step, which is what a crash would leave. */
module Publisher {
  import opened Wrappers

  /** File contents; hashes are taken as injective, so a manifest holds what it was taken from. */
  datatype Content =
    | Blob(id: nat)
    | Manifest(generation: nat, files: seq<Entry>)
    | CommitMarker(generation: nat, manifest: Content)

  datatype Entry = Entry(name: string, content: Content)

  type Directory = map<string, Content>

  const BASELINE := "baseline.json"
  const MARKDOWN := "baseline.md"
  const MANIFEST := "generation-manifest.json"
  const COMMIT := "COMMIT"
  const RAW_PREFIX := "raw_samples"

  /** A committed generation: the marker vouches for the manifest, and the manifest for every
      other file of the directory. */
  ghost predicate Complete(dir: Directory, generation: nat) {
    && MANIFEST in dir && COMMIT in dir && BASELINE in dir && MARKDOWN in dir
    && dir[COMMIT] == CommitMarker(generation, dir[MANIFEST])
    && dir[MANIFEST].Manifest? && dir[MANIFEST].generation == generation
    && (forall e :: e in dir[MANIFEST].files ==> e.name in dir && dir[e.name] == e.content)
    && (forall name :: name in dir && name != MANIFEST && name != COMMIT ==>
          Entry(name, dir[name]) in dir[MANIFEST].files)
  }

  predicate HasPrefix(s: string, prefix: string) { |prefix| <= |s| && s[..|prefix|] == prefix }

  /** The check on a declared raw-sample file name. */
  predicate SafeName(name: string) { HasPrefix(name, RAW_PREFIX) && '/' !in name && '\\' !in name }

  /** Every file has a safe name, and no two have the same. */
  ghost predicate LegalNames(chunks: seq<Entry>) {
    && (forall i :: 0 <= i < |chunks| ==> SafeName(chunks[i].name))
    && (forall i, k :: 0 <= i < k < |chunks| ==> chunks[i].name != chunks[k].name)
  }

  lemma SafeNamesAreNew(name: string)
    requires SafeName(name)
    ensures name != BASELINE && name != MARKDOWN && name != MANIFEST && name != COMMIT
  {
    assert name[0] == RAW_PREFIX[0];
  }

  datatype Snapshot = Snapshot(artifact: Option<Directory>, previous: Option<Directory>)

  /** The artifact directory is absent, the old generation or a complete new one, and the old
      generation still exists. */
  ghost predicate Safe(s: Snapshot, old': Option<Directory>, generation: nat) {
    && (s.artifact.None? || s.artifact == old' || Complete(s.artifact.value, generation))
    && (old'.Some? ==> s.artifact == old' || s.previous == old')
  }

  ghost predicate AllSafe(history: seq<Snapshot>, from: nat, old': Option<Directory>, generation: nat) {
    forall i :: from <= i < |history| ==> Safe(history[i], old', generation)
  }

  /** Raised before the swap or with the old generation back in place; because the directory sync
      after a done swap failed; or with even the restoring rename failing. */
  datatype Outcome = Published | Raised | RaisedAtSync | RaisedUnrestored

  class Publisher {
    var artifact: Option<Directory>
    var previous: Option<Directory>
    var stage: Option<Directory>
    ghost var history: seq<Snapshot>
    /** In a calm world no call raises: no system call fails, and no file is over its size limit. */
    const calm: bool
    /** The restoring rename, if it comes to that, does not fail. */
    const restorable: bool

    ghost method Record()
      modifies `history
      ensures history == old(history) + [Snapshot(artifact, previous)]
    {
      history := history + [Snapshot(artifact, previous)];
    }

    /** An atomic write into the stage; it may raise instead. */
    method Write(name: string, content: Content) returns (ok: bool)
      requires stage.Some?
      modifies `stage, `history
      ensures stage == if ok then Some(old(stage).value[name := content]) else old(stage)
      ensures history == old(history) + [Snapshot(artifact, previous)]
      ensures calm ==> ok
    {
      ok := *;
      ok := ok || calm;
      if ok { stage := Some(stage.value[name := content]); }
      Record();
    }

    /** The raw-sample files, in order, under safe and distinct names. */
    method WriteRaw(chunks: seq<Entry>) returns (ok: bool, raws: seq<string>)
      requires stage.Some?
      modifies `stage, `history
      ensures stage.Some? && Quiet(old(history), history, Snapshot(artifact, previous))
      ensures ok ==> WroteRaw(old(stage).value, stage.value, chunks, raws)
      ensures calm ==> (ok <==> LegalNames(chunks))
    {
      raws, ok := [], true;
      for i := 0 to |chunks|
        invariant ok && stage.Some? && Quiet(old(history), history, Snapshot(artifact, previous))
        invariant WroteRaw(old(stage).value, stage.value, chunks[..i], raws) && LegalNames(chunks[..i])
      {
        var name, content := chunks[i].name, chunks[i].content;
        if !SafeName(name) || name in raws {
          IllegalName(chunks, i, raws);
          return false, raws;
        }
        ghost var before := stage.value;
        ok := Write(name, content);
        if !ok { return; }
        WroteOne(old(stage).value, before, chunks, i, raws);
        OneMoreName(chunks, i, raws);
        raws := raws + [name];
      }
      assert chunks[..|chunks|] == chunks;
    }

    /** The baseline files and the raw samples. */
    method WriteFiles(baseline: Content, markdown: Content, chunks: seq<Entry>)
      returns (ok: bool, names: seq<string>)
      requires stage == Some(map[])
      modifies `stage, `history
      ensures stage.Some? && Quiet(old(history), history, Snapshot(artifact, previous))
      ensures ok ==> Filled(stage.value, names) && Carries(stage.value, baseline, markdown, chunks)
      ensures calm ==> (ok <==> LegalNames(chunks))
    {
      names := [];
      ok := Write(BASELINE, baseline);
      if !ok { return; }
      ok := Write(MARKDOWN, markdown);
      if !ok { return; }
      ghost var base := stage.value;
      var raws: seq<string>;
      ok, raws := WriteRaw(chunks);
      names := [BASELINE, MARKDOWN] + raws;
      if ok { FilledNames(base, baseline, markdown, stage.value, chunks, raws); }
    }

    /** Fill the stage: the files, the manifest over them, and last the marker. */
    method FillStage(generation: nat, baseline: Content, markdown: Content, chunks: seq<Entry>)
      returns (ok: bool)
      requires stage == Some(map[])
      modifies `stage, `history
      ensures stage.Some? && Quiet(old(history), history, Snapshot(artifact, previous))
      ensures ok ==> Complete(stage.value, generation) && Carries(stage.value, baseline, markdown, chunks)
      ensures calm ==> (ok <==> LegalNames(chunks))
    {
      var names: seq<string>;
      ok, names := WriteFiles(baseline, markdown, chunks);
      if !ok { return; }
      ghost var filled := stage.value;
      ok := Write(MANIFEST, Manifest(generation, Metadata(stage.value, names)));
      if !ok { return; }
      ok := Write(COMMIT, CommitMarker(generation, stage.value[MANIFEST]));
      if ok { CommitCompletes(filled, names, generation, baseline, markdown, chunks); }
    }

    /** Swap the staged generation in; restore the old one if that fails. */
    method SwapIn(generation: nat) returns (r: Outcome)
      requires stage.Some? && Complete(stage.value, generation)
      requires artifact.Some? ==> previous.None?
      modifies `artifact, `previous, `stage, `history
      ensures |history| >= |old(history)| && history[..|old(history)|] == old(history)
      ensures AllSafe(history, |old(history)|, old(artifact), generation)
      ensures r.Published? || r.RaisedAtSync? ==>
                && artifact == old(stage) && stage.None?
                && previous == (if old(artifact).Some? then old(artifact) else old(previous))
      ensures r.Raised? ==> artifact == old(artifact) && previous == old(previous) && stage == old(stage)
      ensures r.RaisedUnrestored? ==> artifact.None? && old(artifact).Some? && previous == old(artifact)
      ensures calm ==> r.Published?
      ensures restorable ==> !r.RaisedUnrestored?
    {
      var movedPrevious, ok := false, true;
      if artifact.Some? {
        ok := *;
        ok := ok || calm;
        if ok {
          previous, artifact := artifact, None;
          movedPrevious := true;
        }
        Record();
      }
      if ok {
        ok := *;
        ok := ok || calm;
        if ok { artifact, stage := stage, None; }
        Record();
        if ok {
          ok := *; // the final directory sync
          return if ok || calm then Published else RaisedAtSync;
        }
      }
      // the exception handler
      if movedPrevious && artifact.None? && previous.Some? {
        var restored: bool := *;
        restored := restored || restorable;
        if restored { artifact, previous := previous, None; }
        Record();
        if !restored { return RaisedUnrestored; }
      }
      return Raised;
    }

    /** `_publish_benchmark_locked`. */
    method Publish(generation: nat, baseline: Content, markdown: Content, chunks: seq<Entry>)
      returns (r: Outcome)
      requires stage.None?
      modifies this
      ensures |history| >= |old(history)| && history[..|old(history)|] == old(history)
      ensures AllSafe(history, |old(history)|, old(artifact), generation)
      ensures r.Published? || r.RaisedAtSync? ==>
                && artifact.Some? && Complete(artifact.value, generation)
                && Carries(artifact.value, baseline, markdown, chunks)
                && previous == (if old(artifact).Some? then old(artifact) else old(previous))
      ensures r.Raised? ==> artifact == old(artifact) && previous == old(previous)
      ensures r.RaisedUnrestored? ==> artifact.None? && old(artifact).Some? && previous == old(artifact)
      ensures calm ==>
                r == if (old(artifact).None? || old(previous).None?) && LegalNames(chunks) then Published else Raised
      ensures restorable ==> !r.RaisedUnrestored?
    {
      if artifact.Some? && previous.Some? { return Raised; }
      var made: bool := *;
      if !made && !calm { return Raised; }
      stage := Some(map[]);
      Record();
      var ok := FillStage(generation, baseline, markdown, chunks);
      ghost var mid := history;
      QuietIsSafe(old(history), mid, Snapshot(artifact, previous), generation);
      if ok {
        r := SwapIn(generation);
        SafeThenSafe(old(history), mid, history, old(artifact), generation);
      } else {
        r := Raised;
      }
      stage := None;
    }
  }

  /** Only the stage changed: every step so far shows the same artifact and previous directory. */
  ghost predicate Quiet(before: seq<Snapshot>, after: seq<Snapshot>, s: Snapshot) {
    && |after| >= |before| && after[..|before|] == before
    && (forall i :: |before| <= i < |after| ==> after[i] == s)
  }

  lemma QuietIsSafe(before: seq<Snapshot>, after: seq<Snapshot>, s: Snapshot, generation: nat)
    requires Quiet(before, after, s)
    ensures AllSafe(after, |before|, s.artifact, generation)
  {
  }

  lemma SafeThenSafe(before: seq<Snapshot>, mid: seq<Snapshot>, after: seq<Snapshot>, old': Option<Directory>, generation: nat)
    requires |before| <= |mid| <= |after| && mid[..|before|] == before && after[..|mid|] == mid
    requires AllSafe(mid, |before|, old', generation) && AllSafe(after, |mid|, old', generation)
    ensures after[..|before|] == before && AllSafe(after, |before|, old', generation)
  {
    assert after[..|before|] == after[..|mid|][..|before|];
    forall i | |before| <= i < |after| ensures Safe(after[i], old', generation) {
      if i < |mid| { assert after[i] == after[..|mid|][i] == mid[i]; }
    }
  }

  predicate Has(dir: Directory, name: string, c: Content) { name in dir && dir[name] == c }

  /** Everything that was to be published is in the directory. */
  ghost predicate Carries(dir: Directory, baseline: Content, markdown: Content, chunks: seq<Entry>) {
    && Has(dir, BASELINE, baseline) && Has(dir, MARKDOWN, markdown)
    && (forall e :: e in chunks ==> Has(dir, e.name, e.content))
  }

  /** `after` is `before` plus the chunks, under the distinct safe names `raws`. */
  ghost predicate WroteRaw(before: Directory, after: Directory, chunks: seq<Entry>, raws: seq<string>) {
    && |raws| == |chunks|
    && (forall i :: 0 <= i < |raws| ==> raws[i] == chunks[i].name && SafeName(raws[i]))
    && (forall name :: name in after <==> name in before || name in raws)
    && (forall name :: name in before && name !in raws ==> after[name] == before[name])
    && (forall e :: e in chunks ==> Has(after, e.name, e.content))
  }

  lemma WroteOne(base: Directory, before: Directory, chunks: seq<Entry>, i: nat, raws: seq<string>)
    requires i < |chunks| && WroteRaw(base, before, chunks[..i], raws)
    requires SafeName(chunks[i].name) && chunks[i].name !in raws
    ensures WroteRaw(base, before[chunks[i].name := chunks[i].content], chunks[..i + 1], raws + [chunks[i].name])
  {
    var e := chunks[i];
    var after := before[e.name := e.content];
    assert chunks[..i + 1] == chunks[..i] + [e];
    forall f | f in chunks[..i + 1] ensures Has(after, f.name, f.content) {
      if f in chunks[..i] {
        var k :| 0 <= k < i && chunks[k] == f;
        assert raws[k] == f.name;
        assert Has(before, f.name, f.content);
      }
    }
  }

  lemma IllegalName(chunks: seq<Entry>, i: nat, raws: seq<string>)
    requires i < |chunks| && |raws| == i && forall k :: 0 <= k < i ==> raws[k] == chunks[..i][k].name
    requires !SafeName(chunks[i].name) || chunks[i].name in raws
    ensures !LegalNames(chunks)
  {
    if chunks[i].name in raws {
      var k :| 0 <= k < i && raws[k] == chunks[i].name;
      assert chunks[..i][k] == chunks[k];
    }
  }

  lemma OneMoreName(chunks: seq<Entry>, i: nat, raws: seq<string>)
    requires i < |chunks| && |raws| == i && forall k :: 0 <= k < i ==> raws[k] == chunks[..i][k].name
    requires SafeName(chunks[i].name) && chunks[i].name !in raws && LegalNames(chunks[..i])
    ensures LegalNames(chunks[..i + 1])
  {
    var before, more := chunks[..i], chunks[..i + 1];
    assert more == before + [chunks[i]];
    forall a, b | 0 <= a < b < |more| ensures more[a].name != more[b].name {
      assert more[a] == before[a] && raws[a] in raws;
      if b < i { assert more[b] == before[b]; }
    }
    forall a | 0 <= a < |more| ensures SafeName(more[a].name) {
      if a < i { assert more[a] == before[a]; }
    }
  }

  function Metadata(dir: Directory, names: seq<string>): (files: seq<Entry>)
    requires forall name :: name in names ==> name in dir
    ensures |files| == |names|
  {
    seq(|names|, i requires 0 <= i < |names| => Entry(names[i], dir[names[i]]))
  }

  ghost predicate Filled(dir: Directory, names: seq<string>) {
    && (forall name :: name in dir <==> name in names)
    && MANIFEST !in dir && COMMIT !in dir
  }

  lemma FixedNamesDiffer()
    ensures BASELINE != MARKDOWN && BASELINE != MANIFEST && BASELINE != COMMIT
    ensures MARKDOWN != MANIFEST && MARKDOWN != COMMIT && MANIFEST != COMMIT
  {
    assert |BASELINE| == 13 && |MARKDOWN| == 11 && |MANIFEST| == 24 && |COMMIT| == 6;
  }

  lemma FilledNames(base: Directory, baseline: Content, markdown: Content, dir: Directory, chunks: seq<Entry>, raws: seq<string>)
    requires base == map[][BASELINE := baseline][MARKDOWN := markdown]
    requires WroteRaw(base, dir, chunks, raws)
    ensures Filled(dir, [BASELINE, MARKDOWN] + raws) && Carries(dir, baseline, markdown, chunks)
  {
    FixedNamesDiffer();
    forall name | name in raws
      ensures name != BASELINE && name != MARKDOWN && name != MANIFEST && name != COMMIT
    {
      SafeNamesAreNew(name);
    }
  }

  lemma CommitCompletes(dir: Directory, names: seq<string>, generation: nat, baseline: Content, markdown: Content, chunks: seq<Entry>)
    requires Filled(dir, names) && Carries(dir, baseline, markdown, chunks)
    ensures var manifest := Manifest(generation, Metadata(dir, names));
            var done := dir[MANIFEST := manifest][COMMIT := CommitMarker(generation, manifest)];
            Complete(done, generation) && Carries(done, baseline, markdown, chunks)
  {
    FixedNamesDiffer();
    var files := Metadata(dir, names);
    var manifest := Manifest(generation, files);
    var done := dir[MANIFEST := manifest][COMMIT := CommitMarker(generation, manifest)];
    forall e | e in files ensures e.name in done && done[e.name] == e.content {
      var i :| 0 <= i < |files| && files[i] == e;
      assert names[i] in names;
    }
    forall name | name in done && name != MANIFEST && name != COMMIT ensures Entry(name, done[name]) in files {
      var i :| 0 <= i < |names| && names[i] == name;
      assert files[i] == Entry(name, done[name]);
    }
  }
}
