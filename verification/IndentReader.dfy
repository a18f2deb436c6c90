/** The parser as it runs: an index into the lines, and loops that fill a dictionary or a list. Each
    method is proved to compute what the function of the same construct says. */
module IndentReader {
  import opened IndentParser

  /** The outcome of a call that started at `start` and stopped at `next`. */
  ghost predicate Agrees<T>(s: seq<Token>, start: nat, r: Result<T>, next: nat, spec: Parsed<T>) {
    match spec
    case Ok(value, rest) => r == Done(value) && start <= next <= |s| && rest == s[next..]
    case Fail(e) => r == Failed(e)
  }

  lemma At(lines: seq<Line>, index: nat)
    requires index < |lines|
    ensures var s := ReadAll(lines)[index..];
            s != [] && s[0] == Read(lines[index]) && s[1..] == ReadAll(lines)[index + 1..]
  {
  }

  lemma OpensList(text: string)
    ensures DashOf(text) == Alone <==> text == "-" || (|text| >= 2 && text[..2] == "- ")
  {
    if |text| >= 2 {
      assert text[..2] == [text[0], text[1]];
    }
  }

  method ReadNode(lines: seq<Line>, index: nat, indent: nat) returns (r: Result<Value>, next: nat)
    requires index <= |lines|
    ensures Agrees(ReadAll(lines), index, r, next, Node(ReadAll(lines)[index..], indent))
    decreases |lines| - index, 2
  {
    next := index;
    if index >= |lines| || lines[index].indent != indent {
      return Failed(BadIndentation), index;
    }
    At(lines, index);
    var text := lines[index].text;
    OpensList(text);
    if text == "-" || (|text| >= 2 && text[..2] == "- ") {
      var items;
      items, next := ReadList(lines, index, indent);
      r := if items.Done? then Done(List(items.value)) else Failed(items.error);
    } else {
      var pairs;
      pairs, next := ReadMapping(lines, index, indent);
      r := if pairs.Done? then Done(Map(pairs.value)) else Failed(pairs.error);
    }
  }

  method ReadNested(lines: seq<Line>, index: nat, parent: nat) returns (r: Result<Value>, next: nat)
    requires index <= |lines|
    ensures Agrees(ReadAll(lines), index, r, next, Nested(ReadAll(lines)[index..], parent))
    decreases |lines| - index, 3
  {
    if index >= |lines| || lines[index].indent <= parent {
      return Done(Map([])), index;
    }
    r, next := ReadNode(lines, index, lines[index].indent);
  }

  method ReadValue(text: string, lines: seq<Line>, index: nat, indent: nat) returns (r: Result<Value>, next: nat)
    requires index <= |lines|
    ensures Agrees(ReadAll(lines), index, r, next, ValueOf(text, ReadAll(lines)[index..], indent))
    decreases |lines| - index, 4
  {
    if text != "" {
      return Done(Scalar(text)), index;
    }
    r, next := ReadNested(lines, index, indent);
  }

  method ReadMapping(lines: seq<Line>, start: nat, indent: nat) returns (r: Result<seq<Pair>>, index: nat)
    requires start <= |lines|
    ensures Agrees(ReadAll(lines), start, r, index, Mapping(ReadAll(lines)[start..], indent, []))
    decreases |lines| - start, 1
  {
    ghost var s := ReadAll(lines);
    var result: seq<Pair> := [];
    index := start;
    while index < |lines| && lines[index].indent == indent && !Dashed(lines[index].text)
      invariant start <= index <= |lines|
      invariant Mapping(s[index..], indent, result) == Mapping(s[start..], indent, [])
    {
      var pair, next := ReadPair(lines, index, indent, result);
      if pair.Failed? {
        return Failed(pair.error), index;
      }
      result, index := result + [pair.value], next;
    }
    assert index < |lines| ==> s[index..][0] == s[index];
    r := Done(result);
  }

  /** One turn of the mapping loop. */
  method ReadPair(lines: seq<Line>, index: nat, indent: nat, result: seq<Pair>) returns (r: Result<Pair>, next: nat)
    requires index < |lines| && lines[index].indent == indent && !Dashed(lines[index].text)
    ensures r.Failed? ==> Mapping(ReadAll(lines)[index..], indent, result) == Fail(r.error)
    ensures r.Done? ==>
              && index < next <= |lines|
              && Mapping(ReadAll(lines)[index..], indent, result)
                 == Mapping(ReadAll(lines)[next..], indent, result + [r.value])
    decreases |lines| - index, 0
  {
    ghost var s := ReadAll(lines);
    next := index;
    At(lines, index);
    match ContentOf(lines[index].text) {
      case BadPair =>
        r := Failed(BadKey);
      case KeyValue(key, text) =>
        if HasKey(result, key) {
          return Failed(DuplicateKey(key)), index;
        }
        var value;
        value, next := ReadValue(text, lines, index + 1, indent);
        if value.Failed? {
          return Failed(value.error), index;
        }
        NextPair(s[index..], indent, result, s[next..], value.value);
        r := Done(Pair(key, value.value));
      case _ =>
        r := Failed(NoColon);
    }
  }

  lemma NextPair(s: seq<Token>, indent: nat, done: seq<Pair>, rest: seq<Token>, value: Value)
    requires Here(s, indent, false) && s[0].content.KeyValue? && !HasKey(done, s[0].content.key)
    requires ValueOf(s[0].content.value, s[1..], indent) == Ok(value, rest)
    ensures Mapping(s, indent, done) == Mapping(rest, indent, done + [Pair(s[0].content.key, value)])
  {
  }

  method ReadItem(lines: seq<Line>, index: nat, indent: nat) returns (r: Result<Value>, next: nat)
    requires index < |lines| && Here(ReadAll(lines)[index..], indent, true)
    ensures Agrees(ReadAll(lines), index + 1, r, next, Item(ReadAll(lines)[index..], indent))
    decreases |lines| - index, 0, 1
  {
    At(lines, index);
    var content := Strip(lines[index].text[1..]);
    if content == "" {
      r, next := ReadNested(lines, index + 1, indent);
      return;
    }
    if ':' !in content {
      return Done(Scalar(content)), index + 1;
    }
    r, next := ReadItemPair(content, lines, index, indent);
  }

  /** A list item whose content is a pair. */
  method ReadItemPair(content: string, lines: seq<Line>, index: nat, indent: nat) returns (r: Result<Value>, next: nat)
    requires index < |lines| && Here(ReadAll(lines)[index..], indent, true)
    requires content == Strip(lines[index].text[1..]) && ':' in content
    ensures Agrees(ReadAll(lines), index + 1, r, next, Item(ReadAll(lines)[index..], indent))
    decreases |lines| - index, 0, 0
  {
    At(lines, index);
    match ContentOf(content) {
      case KeyValue(key, text) =>
        r, next := ReadValue(text, lines, index + 1, indent);
        if r.Done? {
          r, next := ReadContinued(Pair(key, r.value), lines, next, indent);
        }
      case _ =>
        return Failed(BadKey), index;
    }
  }

  /** The further pairs of a list item, added one by one to the item's dictionary. */
  method ReadContinued(first: Pair, lines: seq<Line>, index: nat, indent: nat) returns (r: Result<Value>, next: nat)
    requires index <= |lines|
    ensures Agrees(ReadAll(lines), index, r, next, Continued(first, ReadAll(lines)[index..], indent))
    decreases |lines| - index, 2
  {
    if index >= |lines| || lines[index].indent <= indent {
      return Done(Map([first])), index;
    }
    var more;
    more, next := ReadMapping(lines, index, lines[index].indent);
    if more.Failed? {
      return Failed(more.error), next;
    }
    MappingKeys(ReadAll(lines)[index..], lines[index].indent, []);
    r := Merge(first, more.value);
  }

  method Merge(first: Pair, more: seq<Pair>) returns (r: Result<Value>)
    requires Distinct(more)
    ensures r == if HasKey(more, first.key) then Failed(DuplicateKey(first.key)) else Done(Map([first] + more))
  {
    var item := [first];
    for k := 0 to |more|
      invariant item == [first] + more[..k] && !HasKey(more[..k], first.key)
    {
      MergeStep(first, more, k);
      if HasKey(item, more[k].key) {
        assert more[k] in more;
        return Failed(DuplicateKey(more[k].key));
      }
      item := item + [more[k]];
    }
    assert more[..|more|] == more;
    r := Done(Map(item));
  }

  ghost predicate Distinct(pairs: seq<Pair>) {
    forall i, j :: 0 <= i < j < |pairs| ==> pairs[i].key != pairs[j].key
  }

  lemma MergeStep(first: Pair, more: seq<Pair>, k: nat)
    requires k < |more| && Distinct(more) && !HasKey(more[..k], first.key)
    ensures HasKey([first] + more[..k], more[k].key) <==> more[k].key == first.key
    ensures more[k].key != first.key ==> !HasKey(more[..k + 1], first.key)
  {
    assert ([first] + more[..k])[0] == first;
    assert more[..k + 1] == more[..k] + [more[k]];
  }

  /** A mapping never repeats a key. */
  lemma {:induction false} MappingKeys(s: seq<Token>, indent: nat, done: seq<Pair>)
    requires Distinct(done) && Mapping(s, indent, done).Ok?
    ensures Distinct(Mapping(s, indent, done).value)
    decreases |s|
  {
    if Here(s, indent, false) {
      var KeyValue(key, text) := s[0].content;
      var v := ValueOf(text, s[1..], indent);
      assert forall i :: 0 <= i < |done| ==> done[i] in done;
      MappingKeys(v.rest, indent, done + [Pair(key, v.value)]);
    }
  }

  method ReadList(lines: seq<Line>, start: nat, indent: nat) returns (r: Result<seq<Value>>, index: nat)
    requires start <= |lines|
    ensures Agrees(ReadAll(lines), start, r, index, ListItems(ReadAll(lines)[start..], indent, []))
    decreases |lines| - start, 1
  {
    ghost var s := ReadAll(lines);
    var result: seq<Value> := [];
    index := start;
    while index < |lines| && lines[index].indent == indent && Dashed(lines[index].text)
      invariant start <= index <= |lines|
      invariant ListItems(s[index..], indent, result) == ListItems(s[start..], indent, [])
    {
      At(lines, index);
      var item, next := ReadItem(lines, index, indent);
      if item.Failed? {
        return Failed(item.error), index;
      }
      result, index := result + [item.value], next;
    }
    assert index < |lines| ==> s[index..][0] == s[index];
    r := Done(result);
  }

  method LoadManifest(lines: seq<Line>) returns (r: Result<Value>)
    ensures r == Load(lines)
  {
    if lines == [] {
      return Failed(EmptyManifest);
    }
    assert ReadAll(lines)[0..] == ReadAll(lines);
    var value, index := ReadNode(lines, 0, lines[0].indent);
    if value.Failed? {
      return value;
    }
    if index != |lines| || !value.value.Map? {
      return Failed(BadRoot);
    }
    r := value;
  }
}
