/** The layouts of a tree: every way of writing it as indented token lines that the format allows; and
    reading it back. */
module IndentLayout {
  import opened IndentParser

  /** A tree with its layout. A block below a line is indented by one more than the line plus `step`.
      A list item that is a map can stand below its dash, or start on the dash's own line, with its
      further pairs at one shared indent, deeper than the dash. A dash may be attached to what follows
      it, but not the first of a list. */
  datatype Doc = Leaf(text: string) | MapBlock(step: nat, entries: seq<Entry>) | ListBlock(step: nat, items: seq<Bullet>)

  datatype Entry = Entry(key: string, value: Doc)

  datatype Bullet = Plain(dash: Dash, value: Doc) | Compact(dash: Dash, first: Entry, step: nat, more: seq<Entry>)

  // ---- What a layout means ----

  function Meaning(d: Doc): Value
    decreases d
  {
    match d
    case Leaf(text) => Scalar(text)
    case MapBlock(_, entries) => Map(MeaningOfEntries(entries))
    case ListBlock(_, items) => List(MeaningOfItems(items))
  }

  function MeaningOfEntries(es: seq<Entry>): seq<Pair>
    decreases es
  {
    if es == [] then [] else [Pair(es[0].key, Meaning(es[0].value))] + MeaningOfEntries(es[1..])
  }

  function MeaningOfItem(it: Bullet): Value
    decreases it
  {
    match it
    case Plain(_, value) => Meaning(value)
    case Compact(_, first, _, more) => Map([Pair(first.key, Meaning(first.value))] + MeaningOfEntries(more))
  }

  function MeaningOfItems(its: seq<Bullet>): seq<Value>
    decreases its
  {
    if its == [] then [] else [MeaningOfItem(its[0])] + MeaningOfItems(its[1..])
  }

  // ---- The lines of a layout ----

  function PairContent(e: Entry): Content { KeyValue(e.key, if e.value.Leaf? then e.value.text else "") }

  /** The lines below a pair or a dash at `indent`. */
  function LayOut(indent: nat, d: Doc): seq<Token>
    decreases d
  {
    match d
    case Leaf(_) => []
    case MapBlock(step, entries) => LayOutEntries(indent + 1 + step, entries)
    case ListBlock(step, items) => LayOutItems(indent + 1 + step, items)
  }

  function LayOutEntries(indent: nat, es: seq<Entry>): seq<Token>
    decreases es
  {
    if es == [] then []
    else [Token(indent, NoDash, PairContent(es[0]))] + (LayOut(indent, es[0].value) + LayOutEntries(indent, es[1..]))
  }

  function LayOutItem(indent: nat, it: Bullet): seq<Token>
    decreases it
  {
    match it
    case Plain(dash, value) =>
      [Token(indent, dash, if value.Leaf? then Text(value.text) else Nothing)] + LayOut(indent, value)
    case Compact(dash, first, step, more) =>
      [Token(indent, dash, PairContent(first))]
      + (LayOut(indent, first.value) + LayOutEntries(indent + 1 + step, more))
  }

  function LayOutItems(indent: nat, its: seq<Bullet>): seq<Token>
    decreases its
  {
    if its == [] then [] else LayOutItem(indent, its[0]) + LayOutItems(indent, its[1..])
  }

  // ---- The text of a line ----

  /** A key that starts with a dash must not start its line: a leading space that the parser strips
      keeps the line from being taken for a list item. */
  function Guard(key: string): (pre: string)
    ensures AllSpace(pre)
  {
    if Dashed(key) then [NO_BREAK_SPACE] else []
  }

  function After(text: string): string { if text == "" then "" else " " + text }

  function Core(key: string, text: string): string { key + (":" + After(text)) }

  /** The line that reads as this token. */
  function Write(t: Token): Line {
    var text :=
      match t.content
      case Nothing => if t.dash == Attached then "\t" else ""
      case Text(text) => (if t.dash == Attached then "" else " ") + text
      case KeyValue(key, text) =>
        if t.dash == Attached then Core(key, text)
        else (if t.dash == NoDash then "" else " ") + Guard(key) + Core(key, text)
      case BadPair => ":";
    Line(t.indent, (if t.dash == NoDash then "" else "-") + text)
  }

  function WriteAll(s: seq<Token>): seq<Line> { if s == [] then [] else [Write(s[0])] + WriteAll(s[1..]) }

  // ---- Which layouts say what they mean ----

  predicate EmptyMap(d: Doc) { d.MapBlock? && d.entries == [] }

  /** A line at `at` with this dash, right after the lines of `d` below `indent`, would still be read as
      part of `d`, however it goes on. */
  predicate Absorbs(d: Doc, indent: nat, at: nat, dash: Dash)
    decreases d
  {
    match d
    case Leaf(_) => false
    case MapBlock(step, es) =>
      if es == [] then at > indent && dash != Attached else AbsorbsPair(es, indent + 1 + step, at, dash)
    case ListBlock(step, items) => AbsorbsBullet(items, indent + 1 + step, at, dash)
  }

  predicate AbsorbsPair(es: seq<Entry>, indent: nat, at: nat, dash: Dash)
    decreases es
  {
    || (at == indent && dash == NoDash)
    || (|es| == 1 && Absorbs(es[0].value, indent, at, dash))
    || (|es| > 1 && AbsorbsPair(es[1..], indent, at, dash))
  }

  predicate AbsorbsBelow(it: Bullet, indent: nat, at: nat, dash: Dash)
    decreases it
  {
    match it
    case Plain(_, value) => Absorbs(value, indent, at, dash)
    case Compact(_, first, step, more) =>
      if more == [] then (at > indent && dash == NoDash) || Absorbs(first.value, indent, at, dash)
      else AbsorbsPair(more, indent + 1 + step, at, dash)
  }

  predicate AbsorbsBullet(its: seq<Bullet>, indent: nat, at: nat, dash: Dash)
    decreases its
  {
    || (at == indent && dash != NoDash)
    || (|its| == 1 && AbsorbsBelow(its[0], indent, at, dash))
    || (|its| > 1 && AbsorbsBullet(its[1..], indent, at, dash))
  }

  /** Legal keys and scalars, lists that are not empty, and the one layout rule: on a dash's own line, the
      value of the first pair must not absorb the further pairs. */
  predicate Legal(d: Doc, indent: nat)
    decreases d
  {
    match d
    case Leaf(text) => LegalScalar(text)
    case MapBlock(step, entries) => LegalEntries(entries, indent + 1 + step)
    case ListBlock(step, items) => items != [] && items[0].dash == Alone && LegalItems(items, indent + 1 + step)
  }

  predicate LegalEntry(e: Entry, indent: nat)
    decreases e
  {
    LegalKey(e.key) && Legal(e.value, indent)
  }

  predicate LegalEntries(es: seq<Entry>, indent: nat)
    decreases es
  {
    es == []
    || (LegalEntry(es[0], indent) && !HasKey(MeaningOfEntries(es[1..]), es[0].key) && LegalEntries(es[1..], indent))
  }

  predicate LegalItem(it: Bullet, indent: nat)
    decreases it
  {
    it.dash != NoDash &&
    match it
    case Plain(_, value) => Legal(value, indent) && (value.Leaf? ==> ':' !in value.text)
    case Compact(_, first, step, more) =>
      && LegalEntry(first, indent) && LegalEntries(more, indent + 1 + step)
      && !HasKey(MeaningOfEntries(more), first.key)
      && (more != [] ==> !Absorbs(first.value, indent, indent + 1 + step, NoDash))
  }

  predicate LegalItems(its: seq<Bullet>, indent: nat)
    decreases its
  {
    its == [] || (LegalItem(its[0], indent) && LegalItems(its[1..], indent))
  }

  // ---- Text ----

  lemma {:induction false} StripKeeps(pre: string, core: string)
    requires AllSpace(pre) && core != "" && Stripped(core)
    ensures Strip(pre + core) == core
    decreases |pre|
  {
    if pre == "" {
      assert pre + core == core;
    } else {
      assert (pre + core)[1..] == pre[1..] + core;
      StripKeeps(pre[1..], core);
    }
  }

  lemma {:induction false} FindColon(key: string, after: string)
    requires ':' !in key
    ensures Find(key + (":" + after), ':') == |key|
    decreases |key|
  {
    var s := key + (":" + after);
    if key != "" {
      assert s[0] == key[0];
      assert s[1..] == key[1..] + (":" + after);
      FindColon(key[1..], after);
    }
  }

  lemma ContentOfSplit(k: string, after: string)
    requires ':' !in k && LegalKey(Strip(k))
    ensures ContentOf(k + (":" + after)) == KeyValue(Strip(k), Strip(after))
  {
    var s := k + (":" + after);
    FindColon(k, after);
    assert s[|k|] == ':';
    assert s[..|k|] == k && s[|k| + 1..] == after;
  }

  lemma ContentOfPair(pre: string, key: string, text: string)
    requires LegalKey(key) && (text != "" ==> LegalScalar(text)) && AllSpace(pre)
    ensures ContentOf(pre + Core(key, text)) == KeyValue(key, text)
  {
    StripKeeps(pre, key);
    if text != "" {
      StripKeeps(" ", text);
    }
    assert pre + Core(key, text) == (pre + key) + (":" + After(text));
    ContentOfSplit(pre + key, After(text));
  }

  lemma CoreStripped(key: string, text: string)
    requires LegalKey(key) && (text != "" ==> LegalScalar(text))
    ensures Stripped(Core(key, text)) && Core(key, text) != ""
  {
    var core := Core(key, text);
    if text == "" {
      assert core[|core| - 1] == ':';
    } else {
      assert core[|core| - 1] == text[|text| - 1];
    }
  }

  /** The tokens of layouts: a pair on a line, or a dash with anything after it. */
  predicate Writable(t: Token) {
    && Clean(t) && t.content != BadPair
    && (t.dash == NoDash ==> t.content.KeyValue?)
  }

  lemma ReadPair(indent: nat, key: string, text: string)
    requires LegalKey(key) && (text != "" ==> LegalScalar(text))
    ensures Read(Write(Token(indent, NoDash, KeyValue(key, text)))) == Token(indent, NoDash, KeyValue(key, text))
  {
    var s := Guard(key) + Core(key, text);
    assert "" + ("" + Guard(key) + Core(key, text)) == s;
    assert s[0] == (if Dashed(key) then NO_BREAK_SPACE else key[0]);
    ContentOfPair(Guard(key), key, text);
  }

  lemma ReadDashPair(indent: nat, key: string, text: string)
    requires LegalKey(key) && (text != "" ==> LegalScalar(text))
    ensures Read(Write(Token(indent, Alone, KeyValue(key, text)))) == Token(indent, Alone, KeyValue(key, text))
  {
    DashCore(key, text);
    ReadDashed(indent, " " + Guard(key) + Core(key, text), Core(key, text));
  }

  lemma DashCore(key: string, text: string)
    requires LegalKey(key) && (text != "" ==> LegalScalar(text))
    ensures Strip(" " + Guard(key) + Core(key, text)) == Core(key, text)
    ensures ContentOf(Core(key, text)) == KeyValue(key, text)
  {
    CoreStripped(key, text);
    StripKeeps(" " + Guard(key), Core(key, text));
    assert "" + Core(key, text) == Core(key, text);
    ContentOfPair("", key, text);
  }

  lemma ReadDashed(indent: nat, text: string, core: string)
    requires text != "" && text[0] == ' ' && Strip(text) == core
    ensures Read(Line(indent, "-" + text)) == Token(indent, Alone, ContentOf(core))
  {
    var s := "-" + text;
    assert s[1..] == text && s[1] == text[0];
  }

  lemma ReadAttachedPair(indent: nat, key: string, text: string)
    requires LegalKey(key) && (text != "" ==> LegalScalar(text))
    ensures Read(Write(Token(indent, Attached, KeyValue(key, text)))) == Token(indent, Attached, KeyValue(key, text))
  {
    var core := Core(key, text);
    CoreStripped(key, text);
    StripKeeps("", core);
    ContentOfPair("", key, text);
    assert "" + core == core && core[0] == key[0];
    ReadAttachedLine(indent, core);
  }

  lemma ReadAttachedLine(indent: nat, core: string)
    requires core != "" && core[0] != ' ' && Strip(core) == core
    ensures Read(Line(indent, "-" + core)) == Token(indent, Attached, ContentOf(core))
  {
    var s := "-" + core;
    assert s[1..] == core && s[1] == core[0];
  }

  lemma ReadAttached(indent: nat, text: string)
    requires text != "" ==> LegalScalar(text) && ':' !in text
    ensures var t := Token(indent, Attached, if text == "" then Nothing else Text(text)); Read(Write(t)) == t
  {
    if text == "" {
      assert "-\t"[1..] == "\t" && "\t"[1..] == "";
      assert Strip("\t") == "";
    } else {
      assert "" + text == text && ("-" + text)[1..] == text;
      StripKeeps("", text);
    }
  }

  lemma ReadDash(indent: nat, text: string)
    requires text != "" ==> LegalScalar(text) && ':' !in text
    ensures var t := Token(indent, Alone, if text == "" then Nothing else Text(text)); Read(Write(t)) == t
  {
    if text == "" {
      assert "-" + "" == "-" && "-"[1..] == "";
    } else {
      assert ("-" + (" " + text))[1..] == " " + text;
      StripKeeps(" ", text);
    }
  }

  lemma ReadWrite(t: Token)
    requires Writable(t)
    ensures Read(Write(t)) == t
  {
    match t.content {
      case Nothing =>
        if t.dash == Alone { ReadDash(t.indent, ""); } else { ReadAttached(t.indent, ""); }
      case Text(text) =>
        if t.dash == Alone { ReadDash(t.indent, text); } else { ReadAttached(t.indent, text); }
      case KeyValue(key, text) =>
        if t.dash == NoDash {
          ReadPair(t.indent, key, text);
        } else if t.dash == Alone {
          ReadDashPair(t.indent, key, text);
        } else {
          ReadAttachedPair(t.indent, key, text);
        }
    }
  }

  predicate AllWritable(s: seq<Token>) { forall t :: t in s ==> Writable(t) }

  lemma {:induction false} ReadAllWriteAll(s: seq<Token>)
    requires AllWritable(s)
    ensures ReadAll(WriteAll(s)) == s
    decreases |s|
  {
    if s != [] {
      ReadAllWriteAll(s[1..]);
      assert Writable(s[0]);
      ReadWrite(s[0]);
      assert WriteAll(s)[1..] == WriteAll(s[1..]);
      forall k | 0 <= k < |s|
        ensures ReadAll(WriteAll(s))[k] == s[k]
      {
        if k > 0 {
          assert ReadAll(WriteAll(s[1..]))[k - 1] == s[1..][k - 1];
        }
      }
    }
  }

  lemma {:induction false} LayOutWritable(indent: nat, d: Doc)
    requires Legal(d, indent)
    ensures AllWritable(LayOut(indent, d))
    decreases d
  {
    match d {
      case Leaf(_) =>
      case MapBlock(step, entries) => EntriesWritable(indent + 1 + step, entries);
      case ListBlock(step, items) => ItemsWritable(indent + 1 + step, items);
    }
  }

  lemma {:induction false} EntriesWritable(indent: nat, es: seq<Entry>)
    requires LegalEntries(es, indent)
    ensures AllWritable(LayOutEntries(indent, es))
    decreases es
  {
    if es != [] {
      LayOutWritable(indent, es[0].value);
      EntriesWritable(indent, es[1..]);
    }
  }

  lemma {:induction false} ItemWritable(indent: nat, it: Bullet)
    requires LegalItem(it, indent)
    ensures AllWritable(LayOutItem(indent, it))
    decreases it
  {
    match it {
      case Plain(_, value) =>
        LayOutWritable(indent, value);
      case Compact(_, first, step, more) =>
        LayOutWritable(indent, first.value);
        EntriesWritable(indent + 1 + step, more);
    }
  }

  lemma {:induction false} ItemsWritable(indent: nat, its: seq<Bullet>)
    requires LegalItems(its, indent)
    ensures AllWritable(LayOutItems(indent, its))
    decreases its
  {
    if its != [] {
      ItemWritable(indent, its[0]);
      ItemsWritable(indent, its[1..]);
    }
  }

  // ---- Reading a layout back ----

  /** `tail` does not begin with a line that `d` would absorb. */
  predicate Ends(d: Doc, indent: nat, tail: seq<Token>) {
    tail == [] || !Absorbs(d, indent, tail[0].indent, tail[0].dash)
  }

  predicate EndsPairs(es: seq<Entry>, indent: nat, tail: seq<Token>) {
    tail == [] || !AbsorbsPair(es, indent, tail[0].indent, tail[0].dash)
  }

  predicate EndsItem(it: Bullet, indent: nat, tail: seq<Token>) {
    tail == [] || !AbsorbsBelow(it, indent, tail[0].indent, tail[0].dash)
  }

  predicate EndsItems(its: seq<Bullet>, indent: nat, tail: seq<Token>) {
    tail == [] || !AbsorbsBullet(its, indent, tail[0].indent, tail[0].dash)
  }

  lemma {:induction false} AbsorbsDeeper(d: Doc, indent: nat, at: nat, dash: Dash)
    requires Absorbs(d, indent, at, dash)
    ensures at > indent
    decreases d
  {
    match d {
      case MapBlock(step, es) => if es != [] { PairsDeeper(es, indent + 1 + step, at, dash); }
      case ListBlock(step, its) => BulletsDeeper(its, indent + 1 + step, at, dash);
    }
  }

  lemma {:induction false} PairsDeeper(es: seq<Entry>, indent: nat, at: nat, dash: Dash)
    requires AbsorbsPair(es, indent, at, dash)
    ensures at >= indent
    decreases es
  {
    if |es| == 1 && Absorbs(es[0].value, indent, at, dash) {
      AbsorbsDeeper(es[0].value, indent, at, dash);
    } else if |es| > 1 && AbsorbsPair(es[1..], indent, at, dash) {
      PairsDeeper(es[1..], indent, at, dash);
    }
  }

  lemma {:induction false} BelowDeeper(it: Bullet, indent: nat, at: nat, dash: Dash)
    requires AbsorbsBelow(it, indent, at, dash)
    ensures at > indent
    decreases it
  {
    match it {
      case Plain(_, value) => AbsorbsDeeper(value, indent, at, dash);
      case Compact(_, first, step, more) =>
        if more != [] {
          PairsDeeper(more, indent + 1 + step, at, dash);
        } else if Absorbs(first.value, indent, at, dash) {
          AbsorbsDeeper(first.value, indent, at, dash);
        }
    }
  }

  lemma {:induction false} BulletsDeeper(its: seq<Bullet>, indent: nat, at: nat, dash: Dash)
    requires AbsorbsBullet(its, indent, at, dash)
    ensures at >= indent
    decreases its
  {
    if |its| == 1 && AbsorbsBelow(its[0], indent, at, dash) {
      BelowDeeper(its[0], indent, at, dash);
    } else if |its| > 1 && AbsorbsBullet(its[1..], indent, at, dash) {
      BulletsDeeper(its[1..], indent, at, dash);
    }
  }

  /** The value of the first pair ends before the other pairs, and where they end if there are none. */
  lemma FirstPairEnds(es: seq<Entry>, indent: nat, tail: seq<Token>)
    requires es != [] && EndsPairs(es, indent, tail)
    ensures Ends(es[0].value, indent, LayOutEntries(indent, es[1..]) + tail)
    ensures EndsPairs(es[1..], indent, tail)
  {
    var more := LayOutEntries(indent, es[1..]) + tail;
    if |es| == 1 {
      NothingBefore(tail);
    } else {
      assert more[0].indent == indent;
      if Absorbs(es[0].value, indent, indent, more[0].dash) {
        AbsorbsDeeper(es[0].value, indent, indent, more[0].dash);
      }
    }
  }

  lemma FirstItemEnds(its: seq<Bullet>, indent: nat, tail: seq<Token>)
    requires its != [] && EndsItems(its, indent, tail)
    ensures EndsItem(its[0], indent, LayOutItems(indent, its[1..]) + tail)
    ensures EndsItems(its[1..], indent, tail)
  {
    var more := LayOutItems(indent, its[1..]) + tail;
    if |its| == 1 {
      NothingBefore(tail);
    } else {
      assert more[0] == LayOutItem(indent, its[1])[0] && more[0].indent == indent;
      if AbsorbsBelow(its[0], indent, indent, more[0].dash) {
        BelowDeeper(its[0], indent, indent, more[0].dash);
      }
    }
  }

  lemma EntryStep(e: Entry, indent: nat, s: seq<Token>, rest: seq<Token>, done: seq<Pair>)
    requires LegalEntry(e, indent) && !HasKey(done, e.key)
    requires if e.value.Leaf? then rest == s else Nested(s, indent) == Ok(Meaning(e.value), rest)
    ensures Mapping([Token(indent, NoDash, PairContent(e))] + s, indent, done)
            == Mapping(rest, indent, done + [Pair(e.key, Meaning(e.value))])
  {
    var all := [Token(indent, NoDash, PairContent(e))] + s;
    assert all[1..] == s;
  }

  /** What an empty map does not absorb is left, be it deeper or not. */
  lemma EmptyMapParses(parent: nat, tail: seq<Token>)
    requires tail == [] || !(tail[0].indent > parent && tail[0].dash != Attached)
    ensures Nested(tail, parent) == Ok(Map([]), tail)
  {
    if tail != [] && tail[0].indent > parent {
      assert Mapping(tail, tail[0].indent, []) == Ok([], tail);
    }
  }

  lemma {:induction false} NestedParses(d: Doc, indent: nat, tail: seq<Token>)
    requires Legal(d, indent) && !d.Leaf? && Ends(d, indent, tail)
    ensures Nested(LayOut(indent, d) + tail, indent) == Ok(Meaning(d), tail)
    decreases d, 1
  {
    if EmptyMap(d) {
      assert LayOut(indent, d) + tail == tail;
      EmptyMapParses(indent, tail);
    } else {
      BlockParses(d, indent, tail);
      assert (LayOut(indent, d) + tail)[0] == LayOut(indent, d)[0];
    }
  }

  lemma {:induction false} BlockParses(d: Doc, indent: nat, tail: seq<Token>)
    requires Legal(d, indent) && !d.Leaf? && !EmptyMap(d) && Ends(d, indent, tail)
    ensures LayOut(indent, d) != [] && LayOut(indent, d)[0].indent == indent + 1 + d.step
    ensures Node(LayOut(indent, d) + tail, indent + 1 + d.step) == Ok(Meaning(d), tail)
    decreases d, 0
  {
    match d {
      case MapBlock(step, entries) =>
        FreshNothing(entries);
        EntriesParse(entries, indent + 1 + step, [], tail);
        MapNode(entries, indent + 1 + step, tail);
      case ListBlock(step, items) =>
        ItemsParse(items, indent + 1 + step, [], tail);
        ListNode(items, indent + 1 + step, tail);
    }
  }

  lemma MapNode(es: seq<Entry>, indent: nat, tail: seq<Token>)
    requires es != []
    requires Mapping(LayOutEntries(indent, es) + tail, indent, []) == Ok([] + MeaningOfEntries(es), tail)
    ensures Node(LayOutEntries(indent, es) + tail, indent) == Ok(Map(MeaningOfEntries(es)), tail)
  {
    var s := LayOutEntries(indent, es) + tail;
    assert s[0] == Token(indent, NoDash, PairContent(es[0]));
    assert [] + MeaningOfEntries(es) == MeaningOfEntries(es);
  }

  lemma ListNode(its: seq<Bullet>, indent: nat, tail: seq<Token>)
    requires its != [] && its[0].dash == Alone
    requires ListItems(LayOutItems(indent, its) + tail, indent, []) == Ok([] + MeaningOfItems(its), tail)
    ensures Node(LayOutItems(indent, its) + tail, indent) == Ok(List(MeaningOfItems(its)), tail)
  {
    var s := LayOutItems(indent, its) + tail;
    assert s[0] == LayOutItem(indent, its[0])[0];
    assert s[0].indent == indent && s[0].dash == Alone;
    assert [] + MeaningOfItems(its) == MeaningOfItems(its);
  }

  /** No key of `es` is among those already read. */
  predicate Fresh(done: seq<Pair>, es: seq<Entry>) {
    es == [] || (!HasKey(done, es[0].key) && Fresh(done, es[1..]))
  }

  lemma {:induction false} FreshSnoc(done: seq<Pair>, p: Pair, es: seq<Entry>)
    requires Fresh(done, es) && !HasKey(MeaningOfEntries(es), p.key)
    ensures Fresh(done + [p], es)
    decreases |es|
  {
    if es != [] {
      var more := MeaningOfEntries(es);
      assert more[0].key == es[0].key && more[0] in more;
      assert more[1..] == MeaningOfEntries(es[1..]);
      assert forall q :: q in more[1..] ==> q in more;
      FreshSnoc(done, p, es[1..]);
    }
  }

  lemma {:induction false} FreshNothing(es: seq<Entry>)
    ensures Fresh([], es)
    decreases |es|
  {
    if es != [] {
      FreshNothing(es[1..]);
    }
  }

  lemma {:induction false} EntriesParse(es: seq<Entry>, indent: nat, done: seq<Pair>, tail: seq<Token>)
    requires LegalEntries(es, indent) && Fresh(done, es) && EndsPairs(es, indent, tail)
    ensures Mapping(LayOutEntries(indent, es) + tail, indent, done) == Ok(done + MeaningOfEntries(es), tail)
    decreases es
  {
    if es == [] {
      assert LayOutEntries(indent, es) + tail == tail && done + [] == done;
    } else {
      FirstPairEnds(es, indent, tail);
      if !es[0].value.Leaf? {
        NestedParses(es[0].value, indent, LayOutEntries(indent, es[1..]) + tail);
      }
      EntriesStep(es, indent, done, tail);
      EntriesParse(es[1..], indent, done + [PairOf(es[0])], tail);
    }
  }

  function PairOf(e: Entry): Pair { Pair(e.key, Meaning(e.value)) }

  lemma EntriesStep(es: seq<Entry>, indent: nat, done: seq<Pair>, tail: seq<Token>)
    requires es != [] && LegalEntries(es, indent) && Fresh(done, es)
    requires var more := LayOutEntries(indent, es[1..]) + tail;
             !es[0].value.Leaf? ==> Nested(LayOut(indent, es[0].value) + more, indent) == Ok(Meaning(es[0].value), more)
    ensures Mapping(LayOutEntries(indent, es) + tail, indent, done)
            == Mapping(LayOutEntries(indent, es[1..]) + tail, indent, done + [PairOf(es[0])])
    ensures Fresh(done + [PairOf(es[0])], es[1..])
    ensures (done + [PairOf(es[0])]) + MeaningOfEntries(es[1..]) == done + MeaningOfEntries(es)
  {
    var more := LayOutEntries(indent, es[1..]) + tail;
    FreshSnoc(done, PairOf(es[0]), es[1..]);
    FirstEntry(es, indent, tail);
    EntryStep(es[0], indent, LayOut(indent, es[0].value) + more, more, done);
  }

  lemma FirstEntry(es: seq<Entry>, indent: nat, tail: seq<Token>)
    requires es != []
    ensures var more := LayOutEntries(indent, es[1..]) + tail;
            && LayOutEntries(indent, es) + tail == [Token(indent, NoDash, PairContent(es[0]))] + (LayOut(indent, es[0].value) + more)
            && (es[0].value.Leaf? ==> LayOut(indent, es[0].value) + more == more)
  {
    var first := [Token(indent, NoDash, PairContent(es[0]))];
    Regroup(first, LayOut(indent, es[0].value), LayOutEntries(indent, es[1..]), tail);
    NothingBefore(LayOutEntries(indent, es[1..]) + tail);
  }

  lemma NothingBefore(s: seq<Token>)
    ensures [] + s == s
  {
  }

  lemma {:induction false} ItemsParse(its: seq<Bullet>, indent: nat, done: seq<Value>, tail: seq<Token>)
    requires LegalItems(its, indent) && EndsItems(its, indent, tail)
    ensures ListItems(LayOutItems(indent, its) + tail, indent, done) == Ok(done + MeaningOfItems(its), tail)
    decreases its
  {
    if its == [] {
      assert LayOutItems(indent, its) + tail == tail && done + [] == done;
    } else {
      FirstItemEnds(its, indent, tail);
      ItemParses(its[0], indent, LayOutItems(indent, its[1..]) + tail);
      ItemsStep(its, indent, done, tail);
      ItemsParse(its[1..], indent, done + [MeaningOfItem(its[0])], tail);
    }
  }

  lemma ItemsStep(its: seq<Bullet>, indent: nat, done: seq<Value>, tail: seq<Token>)
    requires its != []
    requires var more := LayOutItems(indent, its[1..]) + tail;
             var s := LayOutItem(indent, its[0]) + more;
             Here(s, indent, true) && Item(s, indent) == Ok(MeaningOfItem(its[0]), more)
    ensures ListItems(LayOutItems(indent, its) + tail, indent, done)
            == ListItems(LayOutItems(indent, its[1..]) + tail, indent, done + [MeaningOfItem(its[0])])
    ensures (done + [MeaningOfItem(its[0])]) + MeaningOfItems(its[1..]) == done + MeaningOfItems(its)
  {
    FirstItem(LayOutItem(indent, its[0]), LayOutItems(indent, its[1..]), tail);
    NextItem(LayOutItem(indent, its[0]) + (LayOutItems(indent, its[1..]) + tail), indent, done);
    AddItem(done, its);
  }

  lemma FirstItem(a: seq<Token>, b: seq<Token>, c: seq<Token>)
    ensures (a + b) + c == a + (b + c)
  {
  }

  lemma NextItem(s: seq<Token>, indent: nat, done: seq<Value>)
    requires Here(s, indent, true) && Item(s, indent).Ok?
    ensures ListItems(s, indent, done) == ListItems(Item(s, indent).rest, indent, done + [Item(s, indent).value])
  {
  }

  lemma AddItem(done: seq<Value>, its: seq<Bullet>)
    requires its != []
    ensures (done + [MeaningOfItem(its[0])]) + MeaningOfItems(its[1..]) == done + MeaningOfItems(its)
  {
  }

  lemma {:induction false} ItemParses(it: Bullet, indent: nat, tail: seq<Token>)
    requires LegalItem(it, indent) && EndsItem(it, indent, tail)
    ensures var s := LayOutItem(indent, it) + tail;
            Here(s, indent, true) && Item(s, indent) == Ok(MeaningOfItem(it), tail)
    decreases it
  {
    match it {
      case Plain(dash, value) =>
        if !value.Leaf? {
          NestedParses(value, indent, tail);
        }
        PlainItem(dash, value, indent, tail);
      case Compact(dash, first, step, more) =>
        var deep := indent + 1 + step;
        var rest := LayOutEntries(deep, more) + tail;
        assert LegalEntry(first, indent) && Legal(first.value, indent);
        FirstOfItemEnds(it, indent, tail);
        if !first.value.Leaf? {
          NestedParses(first.value, indent, rest);
        }
        if more != [] {
          FreshNothing(more);
          EntriesParse(more, deep, [], tail);
        }
        ContinuedParses(first, more, indent, deep, tail);
        CompactItem(it, indent, tail);
    }
  }

  lemma FirstOfItemEnds(it: Bullet, indent: nat, tail: seq<Token>)
    requires it.Compact? && LegalItem(it, indent) && EndsItem(it, indent, tail)
    ensures Ends(it.first.value, indent, LayOutEntries(indent + 1 + it.step, it.more) + tail)
    ensures if it.more != [] then EndsPairs(it.more, indent + 1 + it.step, tail)
            else tail == [] || tail[0].indent <= indent || tail[0].dash != NoDash
  {
    if it.more == [] { NothingBefore(tail); }
  }

  lemma CompactItem(it: Bullet, indent: nat, tail: seq<Token>)
    requires it.Compact? && it.dash != NoDash
    requires var rest := LayOutEntries(indent + 1 + it.step, it.more) + tail;
             && (!it.first.value.Leaf? ==>
                   Nested(LayOut(indent, it.first.value) + rest, indent) == Ok(Meaning(it.first.value), rest))
             && (it.first.value.Leaf? ==> it.first.value.text != "")
             && Continued(PairOf(it.first), rest, indent) == Ok(MeaningOfItem(it), tail)
    ensures var s := LayOutItem(indent, it) + tail;
            Here(s, indent, true) && Item(s, indent) == Ok(MeaningOfItem(it), tail)
  {
    var first, deep := it.first, indent + 1 + it.step;
    var rest := LayOutEntries(deep, it.more) + tail;
    var below := LayOut(indent, first.value) + rest;
    assert first.value.Leaf? ==> below == rest;
    CompactStep(it.dash, first, indent, below, rest);
    Regroup([Token(indent, it.dash, PairContent(first))], LayOut(indent, first.value), LayOutEntries(deep, it.more), tail);
  }

  lemma Regroup(a: seq<Token>, b: seq<Token>, c: seq<Token>, d: seq<Token>)
    ensures (a + (b + c)) + d == a + (b + (c + d))
  {
  }

  lemma PlainItem(dash: Dash, value: Doc, indent: nat, tail: seq<Token>)
    requires dash != NoDash
    requires !value.Leaf? ==> Nested(LayOut(indent, value) + tail, indent) == Ok(Meaning(value), tail)
    ensures var s := LayOutItem(indent, Plain(dash, value)) + tail;
            Here(s, indent, true) && Item(s, indent) == Ok(Meaning(value), tail)
  {
    var s := LayOutItem(indent, Plain(dash, value)) + tail;
    assert s[1..] == LayOut(indent, value) + tail;
    assert value.Leaf? ==> LayOut(indent, value) + tail == tail;
  }

  lemma ContinuedParses(first: Entry, more: seq<Entry>, indent: nat, deep: nat, tail: seq<Token>)
    requires deep > indent && !HasKey(MeaningOfEntries(more), first.key)
    requires more == [] ==> tail == [] || tail[0].indent <= indent || tail[0].dash != NoDash
    requires more != [] ==> Mapping(LayOutEntries(deep, more) + tail, deep, []) == Ok([] + MeaningOfEntries(more), tail)
    ensures var p := Pair(first.key, Meaning(first.value));
            Continued(p, LayOutEntries(deep, more) + tail, indent) == Ok(Map([p] + MeaningOfEntries(more)), tail)
  {
    var p := Pair(first.key, Meaning(first.value));
    if more == [] {
      assert LayOutEntries(deep, more) + tail == tail;
      assert [p] + [] == [p];
    } else {
      assert [] + MeaningOfEntries(more) == MeaningOfEntries(more);
    }
  }

  lemma CompactStep(dash: Dash, first: Entry, indent: nat, below: seq<Token>, rest: seq<Token>)
    requires dash != NoDash && (first.value.Leaf? ==> first.value.text != "")
    requires if first.value.Leaf? then rest == below else Nested(below, indent) == Ok(Meaning(first.value), rest)
    ensures var s := [Token(indent, dash, PairContent(first))] + below;
            Here(s, indent, true) && Item(s, indent) == Continued(Pair(first.key, Meaning(first.value)), rest, indent)
  {
    var s := [Token(indent, dash, PairContent(first))] + below;
    assert s[1..] == below;
  }

  /** Round trip: any layout of any legal tree, at any indent, loads as the tree. */
  lemma LayoutRoundTrip(es: seq<Entry>, indent: nat)
    requires es != [] && LegalEntries(es, indent)
    ensures Load(WriteAll(LayOutEntries(indent, es))) == Done(Map(MeaningOfEntries(es)))
  {
    var s := LayOutEntries(indent, es);
    EntriesWritable(indent, es);
    ReadAllWriteAll(s);
    FreshNothing(es);
    EntriesParse(es, indent, [], []);
    MapNode(es, indent, []);
    assert s + [] == s;
    assert WriteAll(s)[0].indent == s[0].indent == indent;
  }

  // ---- Every tree has a layout ----

  function DocOf(v: Value): Doc
    decreases v
  {
    match v
    case Scalar(text) => Leaf(text)
    case Map(pairs) => MapBlock(0, EntriesOf(pairs))
    case List(items) => ListBlock(0, ItemsOf(items))
  }

  function EntriesOf(pairs: seq<Pair>): seq<Entry>
    decreases pairs
  {
    if pairs == [] then [] else [Entry(pairs[0].key, DocOf(pairs[0].value))] + EntriesOf(pairs[1..])
  }

  function ItemsOf(items: seq<Value>): seq<Bullet>
    decreases items
  {
    if items == [] then [] else [Plain(Alone, DocOf(items[0]))] + ItemsOf(items[1..])
  }

  lemma {:induction false} DocIsLegal(v: Value, indent: nat)
    requires Tree(v)
    ensures Legal(DocOf(v), indent) && Meaning(DocOf(v)) == v
    decreases v
  {
    match v {
      case Scalar(_) =>
      case Map(pairs) => EntriesAreLegal(pairs, indent + 1);
      case List(items) => ItemsAreLegal(items, indent + 1);
    }
  }

  lemma {:induction false} EntriesAreLegal(pairs: seq<Pair>, indent: nat)
    requires TreePairs(pairs)
    ensures LegalEntries(EntriesOf(pairs), indent) && MeaningOfEntries(EntriesOf(pairs)) == pairs
    decreases pairs
  {
    if pairs != [] {
      DocIsLegal(pairs[0].value, indent);
      EntriesAreLegal(pairs[1..], indent);
      assert EntriesOf(pairs)[1..] == EntriesOf(pairs[1..]);
    }
  }

  lemma {:induction false} ItemsAreLegal(items: seq<Value>, indent: nat)
    requires TreeItems(items)
    ensures LegalItems(ItemsOf(items), indent) && MeaningOfItems(ItemsOf(items)) == items
    decreases items
  {
    if items != [] {
      DocIsLegal(items[0], indent);
      ItemsAreLegal(items[1..], indent);
      OneMoreItem(Plain(Alone, DocOf(items[0])), ItemsOf(items[1..]), indent);
    }
  }

  lemma OneMoreItem(it: Bullet, its: seq<Bullet>, indent: nat)
    requires LegalItem(it, indent) && LegalItems(its, indent)
    ensures LegalItems([it] + its, indent) && MeaningOfItems([it] + its) == [MeaningOfItem(it)] + MeaningOfItems(its)
  {
    assert ([it] + its)[1..] == its;
  }

  /** What can be loaded, exactly: the trees of the format whose root is a map that is not empty. */
  lemma LoadableIffTree(v: Value)
    ensures RootTree(v) <==> exists lines :: Load(lines) == Done(v)
  {
    if RootTree(v) {
      EntriesAreLegal(v.pairs, 0);
      LayoutRoundTrip(EntriesOf(v.pairs), 0);
      assert Load(WriteAll(LayOutEntries(0, EntriesOf(v.pairs)))) == Done(v);
    }
    if lines :| Load(lines) == Done(v) {
      LoadIsTree(lines);
    }
  }

  /** The price of reading a list item with a colon as a pair: a scalar stands as a list item
      exactly when it has no colon. */
  lemma ListScalarIff(text: string, indent: nat)
    requires LegalScalar(text)
    ensures var s := ReadAll([Line(indent, "- " + text)]);
            Here(s, indent, true) && (Item(s, indent) == Ok(Scalar(text), []) <==> ':' !in text)
  {
    StripKeeps(" ", text);
    assert "- " + text == "-" + (" " + text);
    ReadDashed(indent, " " + text, text);
    ScalarIffText(ReadAll([Line(indent, "- " + text)]), indent, text);
  }

  lemma ScalarIffText(s: seq<Token>, indent: nat, text: string)
    requires |s| == 1 && Here(s, indent, true)
    ensures Item(s, indent) == Ok(Scalar(text), []) <==> s[0].content == Text(text)
  {
    assert s[1..] == [];
  }
}
