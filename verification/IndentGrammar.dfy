/** Whatever is read was laid out: the lines that load are exactly the layouts. */
module IndentGrammar {
  import opened IndentParser
  import opened IndentLayout

  /** `s` is the layout of `d` below `indent`, which means `v`, and then `rest`, which `d` leaves alone. */
  ghost predicate Laid(d: Doc, indent: nat, s: seq<Token>, v: Value, rest: seq<Token>) {
    Legal(d, indent) && Meaning(d) == v && s == LayOut(indent, d) + rest && Ends(d, indent, rest)
  }

  ghost predicate LaidPairs(es: seq<Entry>, indent: nat, s: seq<Token>, pairs: seq<Pair>, rest: seq<Token>) {
    && LegalEntries(es, indent) && MeaningOfEntries(es) == pairs && s == LayOutEntries(indent, es) + rest
    && EndsPairs(es, indent, rest)
  }

  ghost predicate LaidItem(it: Bullet, indent: nat, s: seq<Token>, v: Value, rest: seq<Token>) {
    LegalItem(it, indent) && MeaningOfItem(it) == v && s == LayOutItem(indent, it) + rest && EndsItem(it, indent, rest)
  }

  ghost predicate LaidItems(its: seq<Bullet>, indent: nat, s: seq<Token>, items: seq<Value>, rest: seq<Token>) {
    && LegalItems(its, indent) && MeaningOfItems(its) == items && s == LayOutItems(indent, its) + rest
    && EndsItems(its, indent, rest)
  }

  // ---- Below a line ----

  lemma LaidMap(es: seq<Entry>, indent: nat, deep: nat, s: seq<Token>, pairs: seq<Pair>, rest: seq<Token>)
    requires deep > indent && es != [] && LaidPairs(es, deep, s, pairs, rest)
    ensures Laid(MapBlock(deep - indent - 1, es), indent, s, Map(pairs), rest)
  {
  }

  lemma LaidList(its: seq<Bullet>, indent: nat, deep: nat, s: seq<Token>, items: seq<Value>, rest: seq<Token>)
    requires deep > indent && its != [] && its[0].dash == Alone && LaidItems(its, deep, s, items, rest)
    ensures Laid(ListBlock(deep - indent - 1, its), indent, s, List(items), rest)
  {
  }

  lemma LaidEmpty(indent: nat, s: seq<Token>)
    requires s == [] || s[0].indent <= indent || s[0].dash == Attached
    ensures Laid(MapBlock(0, []), indent, s, Map([]), s)
  {
    NothingBefore(s);
  }

  lemma NodeCases(s: seq<Token>, parent: nat)
    requires s != [] && s[0].indent > parent
    ensures Nested(s, parent) == Node(s, s[0].indent)
    ensures s[0].dash == Alone ==>
              var r := ListItems(s, s[0].indent, []);
              if r.Ok? then Nested(s, parent) == Ok(List(r.value), r.rest) else Nested(s, parent).Fail?
    ensures s[0].dash == NoDash ==>
              var r := Mapping(s, s[0].indent, []);
              if r.Ok? then Nested(s, parent) == Ok(Map(r.value), r.rest) else Nested(s, parent).Fail?
    ensures s[0].dash == Attached ==> Nested(s, parent) == Ok(Map([]), s)
  {
    if s[0].dash == Attached {
      assert Mapping(s, s[0].indent, []) == Ok([], s);
    }
  }

  lemma {:induction false} NestedLays(s: seq<Token>, parent: nat) returns (d: Doc)
    requires AllClean(s) && Nested(s, parent).Ok?
    ensures !d.Leaf? && Laid(d, parent, s, Nested(s, parent).value, Nested(s, parent).rest)
    decreases |s|, 3
  {
    if s == [] || s[0].indent <= parent {
      d := MapBlock(0, []);
      LaidEmpty(parent, s);
    } else {
      var deep := s[0].indent;
      NodeCases(s, parent);
      if s[0].dash == Alone {
        var its := ItemsLay(s, deep, []);
        var r := ListItems(s, deep, []);
        assert r.value == r.value[0..];
        LaidList(its, parent, deep, s, r.value, r.rest);
        d := ListBlock(deep - parent - 1, its);
      } else if s[0].dash == NoDash {
        var es := PairsLay(s, deep, []);
        var r := Mapping(s, deep, []);
        assert r.value == r.value[0..];
        LaidMap(es, parent, deep, s, r.value, r.rest);
        d := MapBlock(deep - parent - 1, es);
      } else {
        d := MapBlock(0, []);
        LaidEmpty(parent, s);
      }
    }
  }

  /** The value of a pair: on its line, or below. */
  lemma {:induction false} ValueLays(text: string, s: seq<Token>, indent: nat) returns (d: Doc)
    requires AllClean(s) && ValueOf(text, s, indent).Ok? && (text != "" ==> LegalScalar(text))
    ensures (d.Leaf? <==> text != "") && (d.Leaf? ==> d.text == text)
    ensures Laid(d, indent, s, ValueOf(text, s, indent).value, ValueOf(text, s, indent).rest)
    decreases |s|, 4
  {
    if text != "" {
      d := Leaf(text);
      NothingBefore(s);
    } else {
      d := NestedLays(s, indent);
    }
  }

  // ---- Pairs ----

  lemma CleanRest(s: seq<Token>, rest: seq<Token>)
    requires AllClean(s) && |rest| <= |s| && rest == s[|s| - |rest|..]
    ensures AllClean(rest)
  {
    assert forall t :: t in rest ==> t in s;
  }

  lemma {:induction false} FreshBefore(done: seq<Pair>, p: Pair, es: seq<Entry>)
    requires Fresh(done + [p], es)
    ensures Fresh(done, es) && !HasKey(MeaningOfEntries(es), p.key)
    decreases |es|
  {
    if es != [] {
      FreshBefore(done, p, es[1..]);
      assert p in done + [p] && forall q :: q in done ==> q in done + [p];
      var more := MeaningOfEntries(es);
      assert forall q :: q in more ==> q == more[0] || q in more[1..];
    }
  }

  lemma LaidMorePairs(e: Entry, es: seq<Entry>, indent: nat, s: seq<Token>, v: Value, mid: seq<Token>, pairs: seq<Pair>,
                      rest: seq<Token>)
    requires s != [] && s[0] == Token(indent, NoDash, PairContent(e)) && LegalKey(e.key)
    requires Laid(e.value, indent, s[1..], v, mid) && LaidPairs(es, indent, mid, pairs, rest)
    requires !HasKey(MeaningOfEntries(es), e.key)
    ensures LaidPairs([e] + es, indent, s, [Pair(e.key, v)] + pairs, rest)
  {
    var all := [e] + es;
    assert all[1..] == es && s == [s[0]] + s[1..];
    Regroup([s[0]], LayOut(indent, e.value), LayOutEntries(indent, es), rest);
    if es == [] { NothingBefore(rest); }
  }

  /** One turn of reading a mapping. */
  lemma PairTurn(s: seq<Token>, indent: nat, done: seq<Pair>) returns (key: string, text: string)
    requires AllClean(s) && Here(s, indent, false) && Mapping(s, indent, done).Ok?
    ensures s[0] == Token(indent, NoDash, KeyValue(key, text)) && LegalKey(key) && (text != "" ==> LegalScalar(text))
    ensures !HasKey(done, key)
    ensures var v := ValueOf(text, s[1..], indent);
            && v.Ok? && Mapping(s, indent, done) == Mapping(v.rest, indent, done + [Pair(key, v.value)])
            && AllClean(s[1..]) && AllClean(v.rest)
  {
    assert Clean(s[0]);
    key, text := s[0].content.key, s[0].content.value;
    ValueSpans(text, s[1..], indent);
    CleanRest(s[1..], ValueOf(text, s[1..], indent).rest);
  }

  lemma {:induction false} PairsLay(s: seq<Token>, indent: nat, done: seq<Pair>) returns (es: seq<Entry>)
    requires AllClean(s) && Mapping(s, indent, done).Ok?
    ensures var r := Mapping(s, indent, done);
            && |r.value| >= |done| && r.value[..|done|] == done && Fresh(done, es)
            && LaidPairs(es, indent, s, r.value[|done|..], r.rest)
    ensures es != [] <==> Here(s, indent, false)
    decreases |s|, 1
  {
    var r := Mapping(s, indent, done);
    if !Here(s, indent, false) {
      es := [];
      NothingBefore(s);
    } else {
      var key, text := PairTurn(s, indent, done);
      var v := ValueOf(text, s[1..], indent);
      var d := ValueLays(text, s[1..], indent);
      var more := PairsLay(v.rest, indent, done + [Pair(key, v.value)]);
      JoinPairs(s, indent, done, Entry(key, d), v.value, v.rest, more, r.value, r.rest);
      es := [Entry(key, d)] + more;
    }
  }

  lemma JoinPairs(s: seq<Token>, indent: nat, done: seq<Pair>, e: Entry, v: Value, mid: seq<Token>, more: seq<Entry>,
                  all: seq<Pair>, rest: seq<Token>)
    requires s != [] && s[0] == Token(indent, NoDash, PairContent(e)) && LegalKey(e.key) && !HasKey(done, e.key)
    requires Laid(e.value, indent, s[1..], v, mid) && Fresh(done + [Pair(e.key, v)], more)
    requires |all| > |done| && all[..|done| + 1] == done + [Pair(e.key, v)]
    requires LaidPairs(more, indent, mid, all[|done| + 1..], rest)
    ensures all[..|done|] == done && Fresh(done, [e] + more)
    ensures LaidPairs([e] + more, indent, s, all[|done|..], rest)
  {
    var p := Pair(e.key, v);
    FreshBefore(done, p, more);
    LaidMorePairs(e, more, indent, s, v, mid, all[|done| + 1..], rest);
    Prefixes(all, done, p);
    assert ([e] + more)[1..] == more;
  }

  lemma Prefixes<T>(all: seq<T>, done: seq<T>, x: T)
    requires |all| > |done| && all[..|done| + 1] == done + [x]
    ensures all[..|done|] == done && all[|done|..] == [x] + all[|done| + 1..]
  {
    assert all[..|done|] == all[..|done| + 1][..|done|];
    assert all[|done|] == all[..|done| + 1][|done|];
  }

  // ---- Items ----

  lemma LaidPlain(dash: Dash, d: Doc, indent: nat, s: seq<Token>, v: Value, rest: seq<Token>)
    requires s != [] && dash != NoDash && s[0] == Token(indent, dash, if d.Leaf? then Text(d.text) else Nothing)
    requires Laid(d, indent, s[1..], v, rest) && (d.Leaf? ==> ':' !in d.text)
    ensures LaidItem(Plain(dash, d), indent, s, v, rest)
  {
    assert s == [s[0]] + s[1..];
  }

  lemma LaidCompact(it: Bullet, indent: nat, s: seq<Token>, v: Value, mid: seq<Token>, more: seq<Pair>, rest: seq<Token>)
    requires it.Compact? && it.dash != NoDash && s != [] && s[0] == Token(indent, it.dash, PairContent(it.first))
    requires LegalKey(it.first.key) && Laid(it.first.value, indent, s[1..], v, mid)
    requires LegalEntries(it.more, indent + 1 + it.step) && MeaningOfEntries(it.more) == more
    requires mid == LayOutEntries(indent + 1 + it.step, it.more) + rest && !HasKey(more, it.first.key)
    requires if it.more != [] then EndsPairs(it.more, indent + 1 + it.step, rest)
             else rest == [] || rest[0].indent <= indent || rest[0].dash != NoDash
    ensures LaidItem(it, indent, s, Map([Pair(it.first.key, v)] + more), rest)
  {
    assert s == [s[0]] + s[1..];
    Regroup([s[0]], LayOut(indent, it.first.value), LayOutEntries(indent + 1 + it.step, it.more), rest);
    if it.more == [] { NothingBefore(rest); }
  }

  lemma {:induction false} CompactLays(s: seq<Token>, indent: nat, key: string, text: string) returns (it: Bullet)
    requires AllClean(s) && Here(s, indent, true) && s[0].content == KeyValue(key, text) && Item(s, indent).Ok?
    ensures it.dash == s[0].dash && LaidItem(it, indent, s, Item(s, indent).value, Item(s, indent).rest)
    decreases |s|, 0, 0
  {
    var v := CompactTurn(s, indent, key, text);
    var d := ValueLays(text, s[1..], indent);
    if v.rest == [] || v.rest[0].indent <= indent {
      it := SinglePair(s, indent, Entry(key, d), v.value, v.rest);
    } else {
      var more := PairsLay(v.rest, v.rest[0].indent, []);
      var r := Mapping(v.rest, v.rest[0].indent, []);
      it := MorePairs(s, indent, Entry(key, d), v.value, v.rest, more, r.value, r.rest);
    }
  }

  lemma SinglePair(s: seq<Token>, indent: nat, first: Entry, v: Value, rest: seq<Token>) returns (it: Bullet)
    requires s != [] && s[0].dash != NoDash && s[0] == Token(indent, s[0].dash, PairContent(first))
    requires LegalKey(first.key) && Laid(first.value, indent, s[1..], v, rest)
    requires rest == [] || rest[0].indent <= indent
    ensures it.dash == s[0].dash && LaidItem(it, indent, s, Map([Pair(first.key, v)] + []), rest)
  {
    it := Compact(s[0].dash, first, 0, []);
    NothingBefore(rest);
    LaidCompact(it, indent, s, v, rest, [], rest);
  }

  lemma MorePairs(s: seq<Token>, indent: nat, first: Entry, v: Value, mid: seq<Token>, es: seq<Entry>, more: seq<Pair>,
                  rest: seq<Token>) returns (it: Bullet)
    requires s != [] && s[0].dash != NoDash && s[0] == Token(indent, s[0].dash, PairContent(first))
    requires LegalKey(first.key) && Laid(first.value, indent, s[1..], v, mid)
    requires mid != [] && mid[0].indent > indent && LaidPairs(es, mid[0].indent, mid, more[0..], rest)
    requires !HasKey(more, first.key) && (es != [] <==> Here(mid, mid[0].indent, false))
    ensures it.dash == s[0].dash && LaidItem(it, indent, s, Map([Pair(first.key, v)] + more), rest)
  {
    assert more[0..] == more;
    it := Compact(s[0].dash, first, mid[0].indent - indent - 1, es);
    if es == [] { NothingBefore(rest); }
    LaidCompact(it, indent, s, v, mid, more, rest);
  }

  /** Reading an item that starts with a pair. */
  lemma CompactTurn(s: seq<Token>, indent: nat, key: string, text: string) returns (v: Parsed<Value>)
    requires AllClean(s) && Here(s, indent, true) && s[0].content == KeyValue(key, text) && Item(s, indent).Ok?
    ensures v == ValueOf(text, s[1..], indent) && v.Ok? && |v.rest| < |s|
    ensures LegalKey(key) && (text != "" ==> LegalScalar(text)) && AllClean(s[1..]) && AllClean(v.rest)
    ensures var p := Pair(key, v.value);
            if v.rest == [] || v.rest[0].indent <= indent then Item(s, indent) == Ok(Map([p] + []), v.rest)
            else
              var r := Mapping(v.rest, v.rest[0].indent, []);
              r.Ok? && !HasKey(r.value, key) && Item(s, indent) == Ok(Map([p] + r.value), r.rest)
  {
    assert Clean(s[0]);
    v := ValueOf(text, s[1..], indent);
    ItemContinues(s, indent, key, text);
    ValueSpans(text, s[1..], indent);
    CleanRest(s[1..], v.rest);
    ContinuedTurn(Pair(key, v.value), v.rest, indent);
  }

  lemma ItemContinues(s: seq<Token>, indent: nat, key: string, text: string)
    requires Here(s, indent, true) && s[0].content == KeyValue(key, text) && Item(s, indent).Ok?
    ensures var v := ValueOf(text, s[1..], indent);
            v.Ok? && Item(s, indent) == Continued(Pair(key, v.value), v.rest, indent)
  {
  }

  lemma ContinuedTurn(p: Pair, s: seq<Token>, indent: nat)
    requires Continued(p, s, indent).Ok?
    ensures if s == [] || s[0].indent <= indent then Continued(p, s, indent) == Ok(Map([p] + []), s)
            else
              var r := Mapping(s, s[0].indent, []);
              r.Ok? && !HasKey(r.value, p.key) && Continued(p, s, indent) == Ok(Map([p] + r.value), r.rest)
  {
    assert [p] + [] == [p];
  }

  lemma {:induction false} ItemLays(s: seq<Token>, indent: nat) returns (it: Bullet)
    requires AllClean(s) && Here(s, indent, true) && Item(s, indent).Ok?
    ensures it.dash == s[0].dash && LaidItem(it, indent, s, Item(s, indent).value, Item(s, indent).rest)
    decreases |s|, 0, 1
  {
    assert Clean(s[0]);
    match s[0].content {
      case Nothing =>
        var d := NestedLays(s[1..], indent);
        it := Plain(s[0].dash, d);
        LaidPlain(s[0].dash, d, indent, s, Item(s, indent).value, Item(s, indent).rest);
      case Text(text) =>
        it := Plain(s[0].dash, Leaf(text));
        NothingBefore(s[1..]);
        LaidPlain(s[0].dash, Leaf(text), indent, s, Scalar(text), s[1..]);
      case KeyValue(key, text) =>
        it := CompactLays(s, indent, key, text);
    }
  }

  lemma LaidMoreItems(it: Bullet, its: seq<Bullet>, indent: nat, s: seq<Token>, v: Value, mid: seq<Token>,
                      items: seq<Value>, rest: seq<Token>)
    requires LaidItem(it, indent, s, v, mid) && LaidItems(its, indent, mid, items, rest)
    ensures LaidItems([it] + its, indent, s, [v] + items, rest)
  {
    assert ([it] + its)[1..] == its;
    FirstItem(LayOutItem(indent, it), LayOutItems(indent, its), rest);
    if its == [] { NothingBefore(rest); }
  }

  lemma {:induction false} ItemsLay(s: seq<Token>, indent: nat, done: seq<Value>) returns (its: seq<Bullet>)
    requires AllClean(s) && ListItems(s, indent, done).Ok?
    ensures var r := ListItems(s, indent, done);
            && |r.value| >= |done| && r.value[..|done|] == done
            && LaidItems(its, indent, s, r.value[|done|..], r.rest)
    ensures Here(s, indent, true) ==> its != [] && its[0].dash == s[0].dash
    decreases |s|, 1
  {
    var r := ListItems(s, indent, done);
    if !Here(s, indent, true) {
      its := [];
      NothingBefore(s);
    } else {
      var item := Item(s, indent);
      var it := ItemLays(s, indent);
      ItemSpans(s, indent);
      CleanRest(s[1..], item.rest);
      var more := ItemsLay(item.rest, indent, done + [item.value]);
      JoinItems(s, indent, done, it, item.value, item.rest, more, r.value, r.rest);
      its := [it] + more;
    }
  }

  lemma JoinItems(s: seq<Token>, indent: nat, done: seq<Value>, it: Bullet, v: Value, mid: seq<Token>, more: seq<Bullet>,
                  all: seq<Value>, rest: seq<Token>)
    requires LaidItem(it, indent, s, v, mid)
    requires |all| > |done| && all[..|done + [v]|] == done + [v]
    requires LaidItems(more, indent, mid, all[|done + [v]|..], rest)
    ensures all[..|done|] == done && LaidItems([it] + more, indent, s, all[|done|..], rest)
  {
    LaidMoreItems(it, more, indent, s, v, mid, all[|done| + 1..], rest);
    Prefixes(all, done, v);
  }

  // ---- The whole manifest ----

  /** The lines that load, and what they load as: the layouts of a map that is not empty, and its meaning.
      Every line is accounted for. */
  lemma LoadIffLayout(lines: seq<Line>, v: Value)
    ensures Load(lines) == Done(v) <==>
            exists indent, es :: es != [] && LegalEntries(es, indent) && ReadAll(lines) == LayOutEntries(indent, es)
                                 && v == Map(MeaningOfEntries(es))
  {
    if Load(lines) == Done(v) {
      var es := LoadLays(lines);
      assert LegalEntries(es, lines[0].indent);
    }
    if indent, es :| es != [] && LegalEntries(es, indent) && ReadAll(lines) == LayOutEntries(indent, es)
                     && v == Map(MeaningOfEntries(es)) {
      LayoutLoads(lines, es, indent);
    }
  }

  lemma LoadLays(lines: seq<Line>) returns (es: seq<Entry>)
    requires Load(lines).Done?
    ensures lines != [] && es != [] && LegalEntries(es, lines[0].indent)
    ensures ReadAll(lines) == LayOutEntries(lines[0].indent, es) && Load(lines) == Done(Map(MeaningOfEntries(es)))
  {
    var s, indent := ReadAll(lines), lines[0].indent;
    forall t | t in s
      ensures Clean(t)
    {
      var k :| 0 <= k < |s| && s[k] == t;
      ReadIsClean(lines[k]);
    }
    es := PairsLay(s, indent, []);
    var r := Mapping(s, indent, []);
    assert r.value[0..] == r.value;
    assert s == LayOutEntries(indent, es) + [] == LayOutEntries(indent, es);
  }

  lemma LayoutLoads(lines: seq<Line>, es: seq<Entry>, indent: nat)
    requires es != [] && LegalEntries(es, indent) && ReadAll(lines) == LayOutEntries(indent, es)
    ensures Load(lines) == Done(Map(MeaningOfEntries(es)))
  {
    var s := ReadAll(lines);
    FreshNothing(es);
    EntriesParse(es, indent, [], []);
    MapNode(es, indent, []);
    assert s + [] == s && s[0].indent == indent && s[0] == Read(lines[0]);
  }
}
