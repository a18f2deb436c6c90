/** The indentation parser: token lines, each an indent and a text, to nested maps and lists. The
    parser is a set of functions from the lines still to be read to a value and the lines left. All
    it looks at in a line's text is its dash and its content, so it works on `Token`s. */
module IndentParser {

  datatype Line = Line(indent: nat, text: string)

  /** A line as the parser sees it: its indent, its dash, and what follows the dash. */
  datatype Token = Token(indent: nat, dash: Dash, content: Content)

  /** `Alone` is a dash that opens a list; an `Attached` one, as in "-x", only continues it. */
  datatype Dash = NoDash | Alone | Attached

  datatype Content = Nothing | Text(text: string) | KeyValue(key: string, value: string) | BadPair

  /** A parsed value. A map keeps its pairs in insertion order; a scalar keeps its text. */
  datatype Value = Scalar(text: string) | List(items: seq<Value>) | Map(pairs: seq<Pair>)

  datatype Pair = Pair(key: string, value: Value)

  datatype Error = NoColon | BadKey | DuplicateKey(key: string) | BadIndentation | EmptyManifest | BadRoot

  datatype Parsed<T> = Ok(value: T, rest: seq<Token>) | Fail(error: Error)

  datatype Result<T> = Done(value: T) | Failed(error: Error)

  // ---- Text ----

  /** What `strip` removes. */
  predicate IsSpace(c: char) {
    || '\t' <= c <= '\r' || '\U{1C}' <= c <= ' ' || c == '\U{85}' || c == NO_BREAK_SPACE || c == '\U{1680}'
    || '\U{2000}' <= c <= '\U{200A}' || c == '\U{2028}' || c == '\U{2029}' || c == '\U{202F}'
    || c == '\U{205F}' || c == '\U{3000}'
  }

  const NO_BREAK_SPACE := '\U{A0}'

  function StripLeft(s: string): string { if s != "" && IsSpace(s[0]) then StripLeft(s[1..]) else s }

  function StripRight(s: string): string {
    if s != "" && IsSpace(s[|s| - 1]) then StripRight(s[..|s| - 1]) else s
  }

  function Strip(s: string): string { StripRight(StripLeft(s)) }

  predicate Stripped(s: string) { s != "" ==> !IsSpace(s[0]) && !IsSpace(s[|s| - 1]) }

  predicate AllSpace(s: string) { forall c :: c in s ==> IsSpace(c) }

  /** The first position of `c`, or the length. */
  function Find(s: string, c: char): (i: nat)
    ensures i <= |s| && c !in s[..i] && (i < |s| ==> s[i] == c)
  {
    if s == "" || s[0] == c then 0 else
      var i := Find(s[1..], c);
      assert s[..1 + i] == [s[0]] + s[1..][..i];
      1 + i
  }

  /** `_split_pair`, and what the parser asks of a text before calling it. */
  function ContentOf(text: string): Content {
    if ':' !in text then (if text == "" then Nothing else Text(text))
    else
      var i := Find(text, ':');
      assert i < |text| by { assert text[..|text|] == text; }
      var key := Strip(text[..i]);
      if key == "" || '{' in key || '}' in key || '[' in key || ']' in key then BadPair
      else KeyValue(key, Strip(text[i + 1..]))
  }

  predicate Dashed(text: string) { text != "" && text[0] == '-' }

  function DashOf(text: string): Dash {
    if !Dashed(text) then NoDash else if |text| == 1 || text[1] == ' ' then Alone else Attached
  }

  function Read(line: Line): Token {
    Token(line.indent, DashOf(line.text), ContentOf(if Dashed(line.text) then Strip(line.text[1..]) else line.text))
  }

  function ReadAll(lines: seq<Line>): (s: seq<Token>)
    ensures |s| == |lines| && forall k :: 0 <= k < |s| ==> s[k] == Read(lines[k])
  {
    seq(|lines|, k requires 0 <= k < |lines| => Read(lines[k]))
  }

  predicate HasKey(pairs: seq<Pair>, key: string) { exists p | p in pairs :: p.key == key }

  // ---- The parser ----

  predicate Here(s: seq<Token>, indent: nat, dashed: bool) {
    s != [] && s[0].indent == indent && (s[0].dash != NoDash) == dashed
  }

  /** `_node`. */
  function Node(s: seq<Token>, indent: nat): (r: Parsed<Value>)
    ensures r.Ok? ==> |r.rest| <= |s|
    decreases |s|, 2
  {
    if s == [] || s[0].indent != indent then Fail(BadIndentation)
    else if s[0].dash == Alone then
      match ListItems(s, indent, [])
      case Ok(items, rest) => Ok(List(items), rest)
      case Fail(e) => Fail(e)
    else
      match Mapping(s, indent, [])
      case Ok(pairs, rest) => Ok(Map(pairs), rest)
      case Fail(e) => Fail(e)
  }

  /** `_nested`. */
  function Nested(s: seq<Token>, parent: nat): (r: Parsed<Value>)
    ensures r.Ok? ==> |r.rest| <= |s|
    decreases |s|, 3
  {
    if s == [] || s[0].indent <= parent then Ok(Map([]), s) else Node(s, s[0].indent)
  }

  /** The value of a pair: on the pair's own line, or nested below it. */
  function ValueOf(text: string, s: seq<Token>, indent: nat): (r: Parsed<Value>)
    ensures r.Ok? ==> |r.rest| <= |s|
    decreases |s|, 4
  {
    if text != "" then Ok(Scalar(text), s) else Nested(s, indent)
  }

  /** `_mapping`, with the pairs already read in `done`. */
  function Mapping(s: seq<Token>, indent: nat, done: seq<Pair>): (r: Parsed<seq<Pair>>)
    ensures r.Ok? ==> |r.rest| <= |s|
    decreases |s|, 1
  {
    if !Here(s, indent, false) then Ok(done, s)
    else
      match s[0].content
      case BadPair => Fail(BadKey)
      case KeyValue(key, text) =>
        (if HasKey(done, key) then Fail(DuplicateKey(key))
         else
           match ValueOf(text, s[1..], indent)
           case Fail(e) => Fail(e)
           case Ok(value, rest) => Mapping(rest, indent, done + [Pair(key, value)]))
      case _ => Fail(NoColon)
  }

  /** One list item, whose dash is on the first line. */
  function Item(s: seq<Token>, indent: nat): (r: Parsed<Value>)
    requires Here(s, indent, true)
    ensures r.Ok? ==> |r.rest| < |s|
    decreases |s|, 0
  {
    match s[0].content
    case Nothing => Nested(s[1..], indent)
    case Text(text) => Ok(Scalar(text), s[1..])
    case BadPair => Fail(BadKey)
    case KeyValue(key, text) =>
      match ValueOf(text, s[1..], indent)
      case Fail(e) => Fail(e)
      case Ok(value, rest) => Continued(Pair(key, value), rest, indent)
  }

  /** The further pairs of a list item that is a map: a mapping at any deeper indent. */
  function Continued(first: Pair, s: seq<Token>, indent: nat): (r: Parsed<Value>)
    ensures r.Ok? ==> |r.rest| <= |s|
    decreases |s|, 2
  {
    if s == [] || s[0].indent <= indent then Ok(Map([first]), s)
    else
      match Mapping(s, s[0].indent, [])
      case Fail(e) => Fail(e)
      case Ok(more, rest) =>
        if HasKey(more, first.key) then Fail(DuplicateKey(first.key)) else Ok(Map([first] + more), rest)
  }

  /** `_list`, with the items already read in `done`. */
  function ListItems(s: seq<Token>, indent: nat, done: seq<Value>): (r: Parsed<seq<Value>>)
    ensures r.Ok? ==> |r.rest| <= |s|
    decreases |s|, 1
  {
    if !Here(s, indent, true) then Ok(done, s)
    else
      match Item(s, indent)
      case Fail(e) => Fail(e)
      case Ok(item, rest) => ListItems(rest, indent, done + [item])
  }

  /** `load_yaml_subset` on the token lines. */
  function Load(lines: seq<Line>): Result<Value> {
    if lines == [] then Failed(EmptyManifest)
    else
      match Node(ReadAll(lines), lines[0].indent)
      case Fail(e) => Failed(e)
      case Ok(value, rest) => if rest == [] && value.Map? then Done(value) else Failed(BadRoot)
  }

  // ---- On any input: contiguous blocks, read forward only ----

  /** What was read is a prefix of the lines, all indented at least as far as the block. */
  ghost predicate Spans(s: seq<Token>, rest: seq<Token>, indent: nat) {
    && |rest| <= |s|
    && rest == s[|s| - |rest|..]
    && forall k :: 0 <= k < |s| - |rest| ==> s[k].indent >= indent
  }

  lemma SpansOn(s: seq<Token>, mid: seq<Token>, rest: seq<Token>, deeper: nat, indent: nat)
    requires s != [] && s[0].indent >= indent && deeper >= indent
    requires Spans(s[1..], mid, deeper) && Spans(mid, rest, indent)
    ensures Spans(s, rest, indent)
  {
    var n, m := |s| - |mid|, |s| - |rest|;
    forall k | 0 <= k < m
      ensures s[k].indent >= indent
    {
      if 0 < k < n {
        assert s[k] == s[1..][k - 1];
      } else if n <= k {
        assert s[k] == mid[k - n];
      }
    }
  }

  lemma SpansMore(s: seq<Token>, mid: seq<Token>, rest: seq<Token>, indent: nat)
    requires Spans(s, mid, indent) && Spans(mid, rest, indent)
    ensures Spans(s, rest, indent)
  {
    var n := |s| - |mid|;
    forall k | 0 <= k < |s| - |rest|
      ensures s[k].indent >= indent
    {
      if n <= k {
        assert s[k] == mid[k - n];
      }
    }
  }

  lemma {:induction false} NodeSpans(s: seq<Token>, indent: nat)
    requires Node(s, indent).Ok?
    ensures Spans(s, Node(s, indent).rest, indent)
    decreases |s|, 2
  {
    if s[0].dash == Alone {
      ListSpans(s, indent, []);
    } else {
      MappingSpans(s, indent, []);
    }
  }

  lemma {:induction false} ValueSpans(text: string, s: seq<Token>, indent: nat)
    requires ValueOf(text, s, indent).Ok?
    ensures Spans(s, ValueOf(text, s, indent).rest, indent + 1)
    decreases |s|, 4
  {
    if text == "" && s != [] && s[0].indent > indent {
      NodeSpans(s, s[0].indent);
    }
  }

  lemma {:induction false} MappingSpans(s: seq<Token>, indent: nat, done: seq<Pair>)
    requires Mapping(s, indent, done).Ok?
    ensures Spans(s, Mapping(s, indent, done).rest, indent)
    decreases |s|, 1
  {
    if Here(s, indent, false) {
      var KeyValue(key, text) := s[0].content;
      ValueSpans(text, s[1..], indent);
      var v := ValueOf(text, s[1..], indent);
      MappingSpans(v.rest, indent, done + [Pair(key, v.value)]);
      SpansOn(s, v.rest, Mapping(s, indent, done).rest, indent + 1, indent);
    }
  }

  lemma {:induction false} ContinuedSpans(first: Pair, s: seq<Token>, indent: nat)
    requires Continued(first, s, indent).Ok?
    ensures Spans(s, Continued(first, s, indent).rest, indent + 1)
    decreases |s|, 2
  {
    if s != [] && s[0].indent > indent {
      MappingSpans(s, s[0].indent, []);
    }
  }

  lemma {:induction false} ItemSpans(s: seq<Token>, indent: nat)
    requires Here(s, indent, true) && Item(s, indent).Ok?
    ensures Spans(s[1..], Item(s, indent).rest, indent + 1)
    decreases |s|, 0
  {
    if s[0].content == Nothing {
      ValueSpans("", s[1..], indent);
    } else if s[0].content.KeyValue? {
      var KeyValue(key, text) := s[0].content;
      var v := ValueOf(text, s[1..], indent);
      ValueSpans(text, s[1..], indent);
      ContinuedSpans(Pair(key, v.value), v.rest, indent);
      SpansMore(s[1..], v.rest, Item(s, indent).rest, indent + 1);
    }
  }

  lemma {:induction false} ListSpans(s: seq<Token>, indent: nat, done: seq<Value>)
    requires ListItems(s, indent, done).Ok?
    ensures Spans(s, ListItems(s, indent, done).rest, indent)
    decreases |s|, 1
  {
    if Here(s, indent, true) {
      ItemSpans(s, indent);
      var item := Item(s, indent);
      ListSpans(item.rest, indent, done + [item.value]);
      SpansOn(s, item.rest, ListItems(s, indent, done).rest, indent + 1, indent);
    }
  }

  // ---- On any input: what a parsed value can be ----

  predicate LegalKey(key: string) {
    key != "" && Stripped(key) && ':' !in key && '{' !in key && '}' !in key && '[' !in key && ']' !in key
  }

  predicate LegalScalar(text: string) { text != "" && Stripped(text) }

  /** The trees of this format: maps with distinct legal keys, lists that are not empty, scalars
      without outer space, and no colon in a scalar that is a list item. */
  predicate Tree(v: Value)
    decreases v
  {
    match v
    case Scalar(text) => LegalScalar(text)
    case List(items) => items != [] && TreeItems(items)
    case Map(pairs) => TreePairs(pairs)
  }

  predicate TreeItems(items: seq<Value>)
    decreases items
  {
    items == [] || (Tree(items[0]) && (items[0].Scalar? ==> ':' !in items[0].text) && TreeItems(items[1..]))
  }

  predicate TreePairs(pairs: seq<Pair>)
    decreases pairs
  {
    pairs == []
    || (LegalKey(pairs[0].key) && !HasKey(pairs[1..], pairs[0].key) && Tree(pairs[0].value) && TreePairs(pairs[1..]))
  }

  lemma {:induction false} TreePairsSnoc(pairs: seq<Pair>, p: Pair)
    requires TreePairs(pairs) && LegalKey(p.key) && Tree(p.value) && !HasKey(pairs, p.key)
    ensures TreePairs(pairs + [p])
    decreases |pairs|
  {
    if pairs == [] {
      assert ([] + [p])[1..] == [];
    } else {
      var more := pairs + [p];
      assert more[1..] == pairs[1..] + [p];
      assert pairs[0] in pairs && forall q :: q in pairs[1..] ==> q in pairs;
      TreePairsSnoc(pairs[1..], p);
      assert !HasKey(more[1..], pairs[0].key);
    }
  }

  lemma {:induction false} TreeItemsSnoc(items: seq<Value>, v: Value)
    requires TreeItems(items) && Tree(v) && (v.Scalar? ==> ':' !in v.text)
    ensures TreeItems(items + [v])
    decreases |items|
  {
    if items == [] {
      assert ([] + [v])[1..] == [];
    } else {
      assert (items + [v])[1..] == items[1..] + [v];
      TreeItemsSnoc(items[1..], v);
    }
  }

  lemma {:induction false} StripRightStripped(s: string)
    ensures var r := StripRight(s); r <= s && (r != "" ==> !IsSpace(r[|r| - 1]))
    decreases |s|
  {
    if s != "" && IsSpace(s[|s| - 1]) {
      StripRightStripped(s[..|s| - 1]);
    }
  }

  lemma {:induction false} StripLeftStripped(s: string)
    ensures var r := StripLeft(s); |r| <= |s| && r == s[|s| - |r|..] && (r != "" ==> !IsSpace(r[0]))
    decreases |s|
  {
    if s != "" && IsSpace(s[0]) {
      StripLeftStripped(s[1..]);
    }
  }

  lemma StripIsStripped(s: string)
    ensures Stripped(Strip(s)) && (forall c :: c in Strip(s) ==> c in s)
  {
    StripLeftStripped(s);
    StripRightStripped(StripLeft(s));
  }

  /** What reading a line can find: legal keys, and texts without outer space. */
  predicate Clean(t: Token) {
    match t.content
    case Nothing => true
    case Text(text) => (t.dash != NoDash ==> LegalScalar(text)) && ':' !in text
    case KeyValue(key, text) => LegalKey(key) && (text != "" ==> LegalScalar(text))
    case BadPair => true
  }

  predicate AllClean(s: seq<Token>) { forall t :: t in s ==> Clean(t) }

  lemma ReadIsClean(line: Line)
    ensures Clean(Read(line))
  {
    var text := if Dashed(line.text) then Strip(line.text[1..]) else line.text;
    if Dashed(line.text) {
      StripIsStripped(line.text[1..]);
    }
    if ':' in text {
      var i := Find(text, ':');
      assert i < |text| by { assert text[..|text|] == text; }
      StripIsStripped(text[..i]);
      StripIsStripped(text[i + 1..]);
    }
  }

  lemma {:induction false} NodeIsTree(s: seq<Token>, indent: nat)
    requires AllClean(s) && Node(s, indent).Ok?
    ensures Tree(Node(s, indent).value) && !Node(s, indent).value.Scalar?
    decreases |s|, 2
  {
    if s[0].dash == Alone {
      ListIsTree(s, indent, []);
    } else {
      MappingIsTree(s, indent, []);
    }
  }

  lemma {:induction false} NestedIsTree(s: seq<Token>, parent: nat)
    requires AllClean(s) && Nested(s, parent).Ok?
    ensures Tree(Nested(s, parent).value) && !Nested(s, parent).value.Scalar?
    decreases |s|, 3
  {
    if s != [] && s[0].indent > parent {
      NodeIsTree(s, s[0].indent);
    }
  }

  lemma {:induction false} ValueIsTree(text: string, s: seq<Token>, indent: nat)
    requires AllClean(s) && ValueOf(text, s, indent).Ok? && (text != "" ==> LegalScalar(text))
    ensures Tree(ValueOf(text, s, indent).value)
    decreases |s|, 4
  {
    if text == "" {
      NestedIsTree(s, indent);
    }
  }

  lemma {:induction false} MappingIsTree(s: seq<Token>, indent: nat, done: seq<Pair>)
    requires AllClean(s) && Mapping(s, indent, done).Ok? && TreePairs(done)
    ensures TreePairs(Mapping(s, indent, done).value)
    decreases |s|, 1
  {
    if Here(s, indent, false) {
      var KeyValue(key, text) := s[0].content;
      assert Clean(s[0]);
      var v := ValueOf(text, s[1..], indent);
      ValueIsTree(text, s[1..], indent);
      ValueSpans(text, s[1..], indent);
      TreePairsSnoc(done, Pair(key, v.value));
      MappingIsTree(v.rest, indent, done + [Pair(key, v.value)]);
    }
  }

  lemma {:induction false} ContinuedIsTree(first: Pair, s: seq<Token>, indent: nat)
    requires AllClean(s) && Continued(first, s, indent).Ok? && LegalKey(first.key) && Tree(first.value)
    ensures Tree(Continued(first, s, indent).value) && Continued(first, s, indent).value.Map?
    decreases |s|, 2
  {
    if s == [] || s[0].indent <= indent {
      TreePairsSnoc([], first);
      assert [] + [first] == [first];
    } else {
      MappingIsTree(s, s[0].indent, []);
      var more := Mapping(s, s[0].indent, []).value;
      assert ([first] + more)[1..] == more;
    }
  }

  lemma {:induction false} ItemIsTree(s: seq<Token>, indent: nat)
    requires AllClean(s) && Here(s, indent, true) && Item(s, indent).Ok?
    ensures var v := Item(s, indent).value; Tree(v) && (v.Scalar? ==> ':' !in v.text)
    decreases |s|, 0
  {
    assert Clean(s[0]);
    if s[0].content == Nothing {
      NestedIsTree(s[1..], indent);
    } else if s[0].content.KeyValue? {
      var KeyValue(key, text) := s[0].content;
      var v := ValueOf(text, s[1..], indent);
      ValueIsTree(text, s[1..], indent);
      ValueSpans(text, s[1..], indent);
      ContinuedIsTree(Pair(key, v.value), v.rest, indent);
    }
  }

  lemma {:induction false} ListIsTree(s: seq<Token>, indent: nat, done: seq<Value>)
    requires AllClean(s) && ListItems(s, indent, done).Ok? && TreeItems(done)
    ensures var items := ListItems(s, indent, done).value;
            TreeItems(items) && |items| >= |done| + (if Here(s, indent, true) then 1 else 0)
    decreases |s|, 1
  {
    if Here(s, indent, true) {
      var item := Item(s, indent);
      ItemIsTree(s, indent);
      ItemSpans(s, indent);
      TreeItemsSnoc(done, item.value);
      ListIsTree(item.rest, indent, done + [item.value]);
    }
  }

  predicate RootTree(v: Value) { v.Map? && v.pairs != [] && Tree(v) }

  /** Whatever lines are loaded, the value is a tree of the format, and a map that is not empty. */
  lemma LoadIsTree(lines: seq<Line>)
    requires Load(lines).Done?
    ensures RootTree(Load(lines).value)
  {
    var s, indent := ReadAll(lines), lines[0].indent;
    forall t | t in s
      ensures Clean(t)
    {
      var k :| 0 <= k < |s| && s[k] == t;
      ReadIsClean(lines[k]);
    }
    NodeIsTree(s, indent);
    if s[0].dash != Alone {
      assert Here(s, indent, false);
      MappingGrows(s, indent, []);
    }
  }

  lemma {:induction false} MappingGrows(s: seq<Token>, indent: nat, done: seq<Pair>)
    requires Mapping(s, indent, done).Ok?
    ensures |Mapping(s, indent, done).value| >= |done| + (if Here(s, indent, false) then 1 else 0)
    decreases |s|
  {
    if Here(s, indent, false) {
      var KeyValue(key, text) := s[0].content;
      var v := ValueOf(text, s[1..], indent);
      MappingGrows(v.rest, indent, done + [Pair(key, v.value)]);
    }
  }
}
