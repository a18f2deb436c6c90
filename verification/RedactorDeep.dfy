/** When redacting a second time changes nothing, for trees that may be too deep and too broad, with
    keys that may meet when they are cut, as long as the node limit is not reached. */
module RedactorDeep {
  import opened Redactor
  import opened RedactorTwice

  // ---- The redaction without its counter ----

  function Deep(p: Policy, v: Json, key: string, depth: nat): Json
    decreases v
  {
    if depth > p.maxDepth then Str(BOUND)
    else if Shield(p.kind(key), v) != "" then Str(Shield(p.kind(key), v))
    else
      match v
      case Dict(members) => Dict(DeepMembers(p, members, 0, depth, []))
      case Seq(items) => Seq(DeepItems(p, items, 0, depth))
      case _ => Leaf(p, v, key)
  }

  function DeepMembers(p: Policy, ms: seq<Member>, index: nat, depth: nat, done: seq<Member>): seq<Member>
    decreases ms
  {
    if ms == [] then done
    else if index >= p.maxItems then Put(done, ITEMS_KEY, Str(BOUND))
    else
      var key := SafeKey(ms[0].key);
      DeepMembers(p, ms[1..], index + 1, depth, Put(done, key, Deep(p, ms[0].value, key, depth + 1)))
  }

  function DeepItems(p: Policy, items: seq<Json>, index: nat, depth: nat): seq<Json>
    decreases items
  {
    if items == [] then []
    else if index >= p.maxItems then [Str(BOUND)]
    else [Deep(p, items[0], "", depth + 1)] + DeepItems(p, items[1..], index + 1, depth)
  }

  lemma {:induction false} VisitIsDeep(p: Policy, v: Json, key: string, depth: nat, nodes: nat)
    requires nodes + Nodes(v) <= p.maxNodes
    ensures var out := Visit(p, v, key, depth, nodes);
            out.value == Deep(p, v, key, depth) && out.nodes <= nodes + Nodes(v)
    decreases v
  {
    match v {
      case Dict(members) => MembersAreDeep(p, members, 0, depth, nodes + 1, []);
      case Seq(items) =>
        ItemsAreDeep(p, items, 0, depth, nodes + 1, []);
        assert [] + DeepItems(p, items, 0, depth) == DeepItems(p, items, 0, depth);
      case _ =>
    }
  }

  lemma {:induction false} MembersAreDeep(p: Policy, ms: seq<Member>, index: nat, depth: nat, nodes: nat, done: seq<Member>)
    requires nodes + MembersNodes(ms) <= p.maxNodes
    ensures var out := VisitMembers(p, ms, index, depth, nodes, done);
            out.value == DeepMembers(p, ms, index, depth, done) && out.nodes <= nodes + MembersNodes(ms)
    decreases ms
  {
    if ms != [] && index < p.maxItems {
      var key := SafeKey(ms[0].key);
      VisitIsDeep(p, ms[0].value, key, depth + 1, nodes);
      var out := Visit(p, ms[0].value, key, depth + 1, nodes);
      MembersAreDeep(p, ms[1..], index + 1, depth, out.nodes, Put(done, key, out.value));
    }
  }

  lemma {:induction false} ItemsAreDeep(p: Policy, items: seq<Json>, index: nat, depth: nat, nodes: nat, done: seq<Json>)
    requires nodes + ItemsNodes(items) <= p.maxNodes
    ensures var out := VisitItems(p, items, index, depth, nodes, done);
            out.value == done + DeepItems(p, items, index, depth) && out.nodes <= nodes + ItemsNodes(items)
    decreases items
  {
    if items == [] {
      assert done + [] == done;
    } else if index < p.maxItems {
      VisitIsDeep(p, items[0], "", depth + 1, nodes);
      var out := Visit(p, items[0], "", depth + 1, nodes);
      ItemsAreDeep(p, items[1..], index + 1, depth, out.nodes, done + [out.value]);
      Regroup(done, out.value, DeepItems(p, items[1..], index + 1, depth));
    }
  }

  /** The output has no more nodes than the input: a mark stands for at least one entry. */
  lemma {:induction false} DeepShrinks(p: Policy, v: Json, key: string, depth: nat)
    ensures Nodes(Deep(p, v, key, depth)) <= Nodes(v)
    decreases v
  {
    match v {
      case Dict(members) => MembersShrinkDeep(p, members, 0, depth, []);
      case Seq(items) => ItemsShrinkDeep(p, items, 0, depth);
      case _ =>
    }
  }

  lemma {:induction false} MembersShrinkDeep(p: Policy, ms: seq<Member>, index: nat, depth: nat, done: seq<Member>)
    ensures MembersNodes(DeepMembers(p, ms, index, depth, done)) <= MembersNodes(done) + MembersNodes(ms)
    decreases ms
  {
    if ms != [] {
      if index >= p.maxItems {
        PutNodes(done, ITEMS_KEY, Str(BOUND));
      } else {
        var key := SafeKey(ms[0].key);
        var v := Deep(p, ms[0].value, key, depth + 1);
        DeepShrinks(p, ms[0].value, key, depth + 1);
        PutNodes(done, key, v);
        DeepTurn(p, ms, index, depth, done);
        MembersShrinkDeep(p, ms[1..], index + 1, depth, Put(done, key, v));
      }
    }
  }

  lemma {:induction false} ItemsShrinkDeep(p: Policy, items: seq<Json>, index: nat, depth: nat)
    ensures ItemsNodes(DeepItems(p, items, index, depth)) <= ItemsNodes(items)
    decreases items
  {
    if items != [] {
      if index >= p.maxItems {
        assert [Str(BOUND)][1..] == [];
      } else {
        DeepShrinks(p, items[0], "", depth + 1);
        ItemsShrinkDeep(p, items[1..], index + 1, depth);
        var r := DeepItems(p, items, index, depth);
        assert r[1..] == DeepItems(p, items[1..], index + 1, depth);
      }
    }
  }

  // ---- The condition ----

  /** A later entry that is still visited takes this key, or the mark of left-out entries does. */
  predicate Overwritten(p: Policy, ms: seq<Member>, index: nat, key: string) {
    if ms == [] then false
    else if index >= p.maxItems then key == ITEMS_KEY
    else SafeKey(ms[0].key) == key || Overwritten(p, ms[1..], index + 1, key)
  }

  predicate SomeOverwritten(p: Policy, ms: seq<Member>, index: nat) {
    ms != [] && index < p.maxItems &&
    (Overwritten(p, ms[1..], index + 1, SafeKey(ms[0].key)) || SomeOverwritten(p, ms[1..], index + 1))
  }

  /** A second pass that comes to the mark as an ordinary entry leaves it. */
  predicate MarkSettled(p: Policy, depth: nat) { FixedAt(p, Str(BOUND), ITEMS_KEY, depth + 1) }

  predicate FixedAt(p: Policy, v: Json, key: string, depth: nat) { Deep(p, v, key, depth) == v }

  /** Every leaf that is reached and stays is settled; and where entries are left out and others
      overwritten, so that a second pass has room to visit the mark, the mark is settled too. */
  predicate SettledDeep(p: Policy, v: Json, key: string, depth: nat)
    decreases v
  {
    depth > p.maxDepth || Shield(p.kind(key), v) != "" ||
    match v
    case Dict(members) =>
      && SettledDeepMembers(p, members, 0, depth)
      && (|members| > p.maxItems && SomeOverwritten(p, members, 0) ==> MarkSettled(p, depth))
    case Seq(items) => SettledDeepItems(p, items, 0, depth)
    case _ => SettledLeaf(p, v, key)
  }

  predicate SettledDeepMembers(p: Policy, ms: seq<Member>, index: nat, depth: nat)
    decreases ms
  {
    ms == [] || index >= p.maxItems ||
    (var key := SafeKey(ms[0].key);
     && (Overwritten(p, ms[1..], index + 1, key) || SettledDeep(p, ms[0].value, key, depth + 1))
     && SettledDeepMembers(p, ms[1..], index + 1, depth))
  }

  predicate SettledDeepItems(p: Policy, items: seq<Json>, index: nat, depth: nat)
    decreases items
  {
    items == [] || index >= p.maxItems ||
    (SettledDeep(p, items[0], "", depth + 1) && SettledDeepItems(p, items[1..], index + 1, depth))
  }

  // ---- What the dictionary loop puts out ----

  const MARK := Member(ITEMS_KEY, Str(BOUND))

  /** Entries that are not overwritten any more are fixed. */
  predicate KeptAt(p: Policy, done: seq<Member>, ms: seq<Member>, index: nat, depth: nat) {
    forall m :: m in done ==> Overwritten(p, ms, index, m.key) || FixedAt(p, m.value, m.key, depth + 1)
  }

  /** Fixed, apart from the mark. */
  predicate FixedButMark(p: Policy, r: seq<Member>, marked: bool, depth: nat) {
    forall m :: m in r ==> (marked && m.key == ITEMS_KEY) || FixedAt(p, m.value, m.key, depth + 1)
  }

  lemma MarkKeyIsShort()
    ensures SafeKey(ITEMS_KEY) == ITEMS_KEY
  {
    assert |ITEMS_KEY| == 16;
  }

  lemma KeptAtStep(p: Policy, done: seq<Member>, ms: seq<Member>, index: nat, depth: nat, w: Json)
    requires ms != [] && index < p.maxItems && Unique(done)
    ensures var key := SafeKey(ms[0].key);
            && Unique(Put(done, key, w))
            && (KeptAt(p, Put(done, key, w), ms[1..], index + 1, depth)
                <==> KeptAt(p, done, ms, index, depth)
                     && (Overwritten(p, ms[1..], index + 1, key) || FixedAt(p, w, key, depth + 1)))
  {
    var key := SafeKey(ms[0].key);
    var r := Put(done, key, w);
    SafeKeyTwice(ms[0].key);
    PutUnique(done, key, w);
    assert Member(key, w) in r;
    if KeptAt(p, r, ms[1..], index + 1, depth) {
      forall m | m in done
        ensures Overwritten(p, ms, index, m.key) || FixedAt(p, m.value, m.key, depth + 1)
      {
        assert m.key != key ==> m in r;
      }
    }
  }

  lemma MarkedEnd(p: Policy, done: seq<Member>, ms: seq<Member>, index: nat, depth: nat)
    requires ms != [] && index >= p.maxItems && Unique(done)
    ensures var r := Put(done, ITEMS_KEY, Str(BOUND));
            Unique(r) && MARK in r && (FixedButMark(p, r, true, depth) <==> KeptAt(p, done, ms, index, depth))
  {
    MarkKeyIsShort();
    PutUnique(done, ITEMS_KEY, Str(BOUND));
    var r := Put(done, ITEMS_KEY, Str(BOUND));
    if FixedButMark(p, r, true, depth) {
      forall m | m in done
        ensures Overwritten(p, ms, index, m.key) || FixedAt(p, m.value, m.key, depth + 1)
      {
        assert m.key != ITEMS_KEY ==> m in r;
      }
    }
  }

  /** One turn of the loop. */
  lemma DeepTurn(p: Policy, ms: seq<Member>, index: nat, depth: nat, done: seq<Member>)
    requires ms != [] && index < p.maxItems
    ensures var key := SafeKey(ms[0].key);
            DeepMembers(p, ms, index, depth, done)
            == DeepMembers(p, ms[1..], index + 1, depth, Put(done, key, Deep(p, ms[0].value, key, depth + 1)))
  {
  }

  lemma SettledTurn(p: Policy, ms: seq<Member>, index: nat, depth: nat, done: seq<Member>, w: Json)
    requires ms != [] && index < p.maxItems && Unique(done)
    requires var key := SafeKey(ms[0].key);
             FixedAt(p, w, key, depth + 1) <==> SettledDeep(p, ms[0].value, key, depth + 1)
    ensures var key := SafeKey(ms[0].key);
            && Unique(Put(done, key, w))
            && (KeptAt(p, Put(done, key, w), ms[1..], index + 1, depth) && SettledDeepMembers(p, ms[1..], index + 1, depth)
                <==> KeptAt(p, done, ms, index, depth) && SettledDeepMembers(p, ms, index, depth))
  {
    KeptAtStep(p, done, ms, index, depth, w);
  }

  /** What came out is fixed, apart from the mark, exactly when what was there and what is still to
      come is. */
  predicate Twice(p: Policy, r: seq<Member>, ms: seq<Member>, index: nat, depth: nat, done: seq<Member>)
    requires index <= p.maxItems
  {
    && Unique(r) && (|ms| > p.maxItems - index ==> MARK in r)
    && (FixedButMark(p, r, |ms| > p.maxItems - index, depth)
        <==> KeptAt(p, done, ms, index, depth) && SettledDeepMembers(p, ms, index, depth))
  }

  lemma TwiceTurn(p: Policy, r: seq<Member>, ms: seq<Member>, index: nat, depth: nat, done: seq<Member>, w: Json)
    requires ms != [] && index < p.maxItems && Unique(done)
    requires var key := SafeKey(ms[0].key);
             && (FixedAt(p, w, key, depth + 1) <==> SettledDeep(p, ms[0].value, key, depth + 1))
             && Twice(p, r, ms[1..], index + 1, depth, Put(done, key, w))
    ensures Twice(p, r, ms, index, depth, done)
  {
    SettledTurn(p, ms, index, depth, done, w);
  }

  lemma TwiceEnd(p: Policy, ms: seq<Member>, index: nat, depth: nat, done: seq<Member>)
    requires Unique(done) && (ms == [] || index == p.maxItems) && index <= p.maxItems
    ensures Twice(p, DeepMembers(p, ms, index, depth, done), ms, index, depth, done)
  {
    if ms != [] {
      MarkedEnd(p, done, ms, index, depth);
    }
  }

  lemma {:induction false} MembersDeepTwice(p: Policy, ms: seq<Member>, index: nat, depth: nat, done: seq<Member>)
    requires Unique(done) && index <= p.maxItems
    ensures Twice(p, DeepMembers(p, ms, index, depth, done), ms, index, depth, done)
    decreases ms, 0
  {
    if ms == [] || index == p.maxItems {
      TwiceEnd(p, ms, index, depth, done);
    } else {
      var key := SafeKey(ms[0].key);
      var w := Deep(p, ms[0].value, key, depth + 1);
      DeepTwice(p, ms[0].value, key, depth + 1);
      KeptAtStep(p, done, ms, index, depth, w);
      MembersDeepTwice(p, ms[1..], index + 1, depth, Put(done, key, w));
      TwiceTurn(p, DeepMembers(p, ms[1..], index + 1, depth, Put(done, key, w)), ms, index, depth, done, w);
      DeepTurn(p, ms, index, depth, done);
    }
  }

  // ---- How many entries come out ----

  lemma {:induction false} PutSize(ms: seq<Member>, key: string, v: Json)
    ensures var taken := exists m :: m in ms && m.key == key;
            |Put(ms, key, v)| == |ms| + (if taken then 0 else 1)
    decreases |ms|
  {
    if ms != [] {
      PutSize(ms[1..], key, v);
      assert ms == [ms[0]] + ms[1..];
      if ms[0].key != key && (exists m :: m in ms && m.key == key) {
        var m :| m in ms && m.key == key;
        assert m in ms[1..];
      }
    }
  }

  /** Nothing that is already there is overwritten. */
  predicate Spared(p: Policy, done: seq<Member>, ms: seq<Member>, index: nat) {
    forall m :: m in done ==> !Overwritten(p, ms, index, m.key)
  }

  /** An entry more for every entry visited and one for the mark, unless one overwrites another. */
  predicate CountsOut(p: Policy, r: seq<Member>, ms: seq<Member>, index: nat, done: seq<Member>)
    requires index <= p.maxItems
  {
    var most := |done| + (if |ms| > p.maxItems - index then p.maxItems - index + 1 else |ms|);
    && |r| <= most
    && (|r| == most <==> Spared(p, done, ms, index) && !SomeOverwritten(p, ms, index))
  }

  lemma CountsTurn(p: Policy, r: seq<Member>, ms: seq<Member>, index: nat, done: seq<Member>, w: Json)
    requires ms != [] && index < p.maxItems && Unique(done)
    requires CountsOut(p, r, ms[1..], index + 1, Put(done, SafeKey(ms[0].key), w))
    ensures CountsOut(p, r, ms, index, done)
  {
    PutSize(done, SafeKey(ms[0].key), w);
    SparedStep(p, done, ms, index, w);
  }

  lemma CountsEnd(p: Policy, ms: seq<Member>, index: nat, depth: nat, done: seq<Member>)
    requires (ms == [] || index == p.maxItems) && index <= p.maxItems
    ensures CountsOut(p, DeepMembers(p, ms, index, depth, done), ms, index, done)
  {
    if ms != [] {
      PutSize(done, ITEMS_KEY, Str(BOUND));
    }
  }

  lemma {:induction false} EntriesOut(p: Policy, ms: seq<Member>, index: nat, depth: nat, done: seq<Member>)
    requires Unique(done) && index <= p.maxItems
    ensures CountsOut(p, DeepMembers(p, ms, index, depth, done), ms, index, done)
    decreases ms
  {
    if ms == [] || index == p.maxItems {
      CountsEnd(p, ms, index, depth, done);
    } else {
      var key := SafeKey(ms[0].key);
      var w := Deep(p, ms[0].value, key, depth + 1);
      SafeKeyTwice(ms[0].key);
      PutUnique(done, key, w);
      EntriesOut(p, ms[1..], index + 1, depth, Put(done, key, w));
      CountsTurn(p, DeepMembers(p, ms[1..], index + 1, depth, Put(done, key, w)), ms, index, done, w);
      DeepTurn(p, ms, index, depth, done);
    }
  }

  lemma SparedStep(p: Policy, done: seq<Member>, ms: seq<Member>, index: nat, w: Json)
    requires ms != [] && index < p.maxItems && Unique(done)
    ensures var key := SafeKey(ms[0].key);
            var taken := exists m :: m in done && m.key == key;
            Spared(p, done, ms, index) && !SomeOverwritten(p, ms, index)
            <==> !taken && Spared(p, Put(done, key, w), ms[1..], index + 1) && !SomeOverwritten(p, ms[1..], index + 1)
  {
    var key := SafeKey(ms[0].key);
    SafeKeyTwice(ms[0].key);
    PutUnique(done, key, w);
    var r := Put(done, key, w);
    assert Member(key, w) in r;
    if !(exists m :: m in done && m.key == key) && Spared(p, r, ms[1..], index + 1) {
      forall m | m in done
        ensures !Overwritten(p, ms, index, m.key)
      {
        assert m in r;
      }
    }
  }

  predicate EndsInMark(r: seq<Member>) { r != [] && r[|r| - 1] == MARK }

  lemma MarkAtEnd(p: Policy, done: seq<Member>, ms: seq<Member>, index: nat, depth: nat)
    requires ms != [] && index == p.maxItems && Spared(p, done, ms, index)
    ensures EndsInMark(DeepMembers(p, ms, index, depth, done))
  {
    PutAtEnd(done, ITEMS_KEY, Str(BOUND));
  }

  /** When nothing is overwritten the mark comes last. */
  lemma {:induction false} MarkLast(p: Policy, ms: seq<Member>, index: nat, depth: nat, done: seq<Member>)
    requires Unique(done) && index <= p.maxItems && |ms| > p.maxItems - index
    requires Spared(p, done, ms, index) && !SomeOverwritten(p, ms, index)
    ensures EndsInMark(DeepMembers(p, ms, index, depth, done))
    decreases ms
  {
    if index == p.maxItems {
      MarkAtEnd(p, done, ms, index, depth);
    } else {
      var key := SafeKey(ms[0].key);
      var w := Deep(p, ms[0].value, key, depth + 1);
      SafeKeyTwice(ms[0].key);
      PutUnique(done, key, w);
      SparedStep(p, done, ms, index, w);
      MarkLast(p, ms[1..], index + 1, depth, Put(done, key, w));
      DeepTurn(p, ms, index, depth, done);
    }
  }

  // ---- The second pass over distinct entries ----

  predicate AllFixedAt(p: Policy, ms: seq<Member>, depth: nat) {
    forall m :: m in ms ==> FixedAt(p, m.value, m.key, depth + 1)
  }

  /** With room for all of `ms`, and then perhaps for a mark that stays out of the limit. */
  lemma {:induction false} SecondPass(p: Policy, done: seq<Member>, ms: seq<Member>, tail: seq<Member>, depth: nat)
    requires Unique((done + ms) + tail) && |done + ms| <= p.maxItems
    requires tail == [] || (tail == [MARK] && |done + ms| == p.maxItems)
    ensures var r := DeepMembers(p, ms + tail, |done|, depth, done);
            && |r| == |(done + ms) + tail| && r[..|done|] == done
            && (r == (done + ms) + tail <==> AllFixedAt(p, ms, depth))
    decreases |ms|
  {
    if ms == [] {
      assert done + ms == done && ms + tail == tail;
      if tail != [] {
        LastIsNew(done, tail);
        PutAtEnd(done, ITEMS_KEY, Str(BOUND));
      } else {
        assert done + [] == done;
      }
    } else {
      var m := Member(ms[0].key, Deep(p, ms[0].value, ms[0].key, depth + 1));
      RestOf(ms, tail);
      assert (done + ms) + tail == done + (ms + tail);
      SameKeys(done, m, ms + tail);
      PutAtEnd(done, m.key, m.value);
      assert (done + [m]) + (ms + tail)[1..] == ((done + [m]) + ms[1..]) + tail;
      SecondPass(p, done + [m], ms[1..], tail, depth);
      SecondStep(p, done, m, ms, tail, depth);
    }
  }

  lemma LastIsNew(done: seq<Member>, tail: seq<Member>)
    requires tail == [MARK] && Unique((done + []) + tail)
    ensures forall d :: d in done ==> d.key != ITEMS_KEY
  {
    var all := (done + []) + tail;
    assert all[|done|] == MARK;
    assert forall i :: 0 <= i < |done| ==> all[i] == done[i];
  }

  lemma RestOf(ms: seq<Member>, tail: seq<Member>)
    requires ms != []
    ensures (ms + tail)[0] == ms[0] && (ms + tail)[1..] == ms[1..] + tail
  {
  }

  lemma SecondStep(p: Policy, done: seq<Member>, m: Member, ms: seq<Member>, tail: seq<Member>, depth: nat)
    requires ms != [] && m == Member(ms[0].key, Deep(p, ms[0].value, ms[0].key, depth + 1))
    requires var r := DeepMembers(p, ms[1..] + tail, |done| + 1, depth, done + [m]);
             && |r| == |((done + [m]) + ms[1..]) + tail| && r[..|done + [m]|] == done + [m]
             && (r == ((done + [m]) + ms[1..]) + tail <==> AllFixedAt(p, ms[1..], depth))
    ensures var r := DeepMembers(p, ms[1..] + tail, |done| + 1, depth, done + [m]);
            && r[..|done|] == done && (r == (done + ms) + tail <==> AllFixedAt(p, ms, depth))
  {
    var r := DeepMembers(p, ms[1..] + tail, |done| + 1, depth, done + [m]);
    RestOf(ms, tail);
    PrefixGrows(r, done, m, ms + tail);
    assert done + (ms + tail) == (done + ms) + tail;
    assert (done + [m]) + (ms + tail)[1..] == ((done + [m]) + ms[1..]) + tail;
    assert ms == [ms[0]] + ms[1..];
  }

  // ---- Dictionaries, lists, leaves ----

  /** The second pass over the entries that came out: with room for all of them, or all but the mark. */
  lemma DictDeepTwice(p: Policy, ms: seq<Member>, depth: nat)
    requires Twice(p, DeepMembers(p, ms, 0, depth, []), ms, 0, depth, [])
    ensures var r := DeepMembers(p, ms, 0, depth, []);
            DeepMembers(p, r, 0, depth, []) == r
            <==> SettledDeepMembers(p, ms, 0, depth)
                 && (|ms| > p.maxItems && SomeOverwritten(p, ms, 0) ==> MarkSettled(p, depth))
  {
    var r := DeepMembers(p, ms, 0, depth, []);
    EntriesOut(p, ms, 0, depth, []);
    if |ms| > p.maxItems && !SomeOverwritten(p, ms, 0) {
      MarkLast(p, ms, 0, depth, []);
      NoRoom(p, r, depth);
    } else {
      Room(p, r, |ms| > p.maxItems, depth);
    }
  }

  lemma NoRoom(p: Policy, r: seq<Member>, depth: nat)
    requires Unique(r) && |r| == p.maxItems + 1 && r[|r| - 1] == MARK
    ensures DeepMembers(p, r, 0, depth, []) == r <==> FixedButMark(p, r, true, depth)
  {
    var most := r[..|r| - 1];
    assert r == most + [MARK] && [] + most == most;
    SecondPass(p, [], most, [MARK], depth);
    AllButMark(p, r, most, depth);
  }

  lemma Room(p: Policy, r: seq<Member>, marked: bool, depth: nat)
    requires Unique(r) && |r| <= p.maxItems && (marked ==> MARK in r)
    ensures DeepMembers(p, r, 0, depth, []) == r
            <==> FixedButMark(p, r, marked, depth) && (marked ==> MarkSettled(p, depth))
  {
    assert [] + r == r && r + [] == r;
    SecondPass(p, [], r, [], depth);
    WithMark(p, r, marked, depth);
  }

  lemma AllButMark(p: Policy, r: seq<Member>, most: seq<Member>, depth: nat)
    requires Unique(r) && r == most + [MARK]
    ensures AllFixedAt(p, most, depth) <==> FixedButMark(p, r, true, depth)
  {
    assert forall i :: 0 <= i < |most| ==> r[i] == most[i];
    assert r[|most|] == MARK;
    forall m | m in most
      ensures m in r && m.key != ITEMS_KEY
    {
    }
  }

  lemma WithMark(p: Policy, r: seq<Member>, marked: bool, depth: nat)
    requires Unique(r) && (marked ==> MARK in r)
    ensures AllFixedAt(p, r, depth) <==> FixedButMark(p, r, marked, depth) && (marked ==> MarkSettled(p, depth))
  {
    if marked {
      forall m | m in r && m.key == ITEMS_KEY
        ensures m == MARK
      {
      }
    }
  }

  lemma {:induction false} ItemsDeepTwice(p: Policy, items: seq<Json>, index: nat, depth: nat)
    ensures var r := DeepItems(p, items, index, depth);
            DeepItems(p, r, index, depth) == r <==> SettledDeepItems(p, items, index, depth)
    decreases items, 0
  {
    if items != [] && index < p.maxItems {
      DeepTwice(p, items[0], "", depth + 1);
      ItemsDeepTwice(p, items[1..], index + 1, depth);
      var w, rest := Deep(p, items[0], "", depth + 1), DeepItems(p, items[1..], index + 1, depth);
      assert ([w] + rest)[1..] == rest;
      SameCons(Deep(p, w, "", depth + 1), DeepItems(p, rest, index + 1, depth), w, rest);
    }
  }

  lemma LeafDeepTwice(p: Policy, v: Json, key: string, depth: nat)
    requires !v.Dict? && !v.Seq? && depth <= p.maxDepth && Shield(p.kind(key), v) == ""
    ensures FixedAt(p, Deep(p, v, key, depth), key, depth) <==> SettledLeaf(p, v, key)
  {
    OpenLeaf(p, v, key);
    assert Deep(p, v, key, depth) == Leaf(p, v, key);
    assert Deep(p, Leaf(p, v, key), key, depth) == Simple(p, Leaf(p, v, key), key);
  }

  lemma CoveredTwice(p: Policy, v: Json, key: string, depth: nat)
    requires depth > p.maxDepth || Shield(p.kind(key), v) != ""
    ensures FixedAt(p, Deep(p, v, key, depth), key, depth)
  {
    ShieldAgain(p.kind(key), v);
  }

  lemma OpenDeepDict(p: Policy, ms: seq<Member>, key: string, depth: nat)
    requires depth <= p.maxDepth && Shield(p.kind(key), Dict(ms)) == ""
    ensures Deep(p, Dict(ms), key, depth) == Dict(DeepMembers(p, ms, 0, depth, []))
  {
  }

  lemma {:induction false} DeepTwice(p: Policy, v: Json, key: string, depth: nat)
    ensures FixedAt(p, Deep(p, v, key, depth), key, depth) <==> SettledDeep(p, v, key, depth)
    decreases v, 1
  {
    if depth > p.maxDepth || Shield(p.kind(key), v) != "" {
      CoveredTwice(p, v, key, depth);
    } else {
      match v {
        case Dict(members) =>
          var r := DeepMembers(p, members, 0, depth, []);
          MembersDeepTwice(p, members, 0, depth, []);
          DictDeepTwice(p, members, depth);
          OpenDict(p.kind(key), members, r);
          OpenDeepDict(p, members, key, depth);
          OpenDeepDict(p, r, key, depth);
        case Seq(items) =>
          ItemsDeepTwice(p, items, 0, depth);
          assert Shield(p.kind(key), Seq(DeepItems(p, items, 0, depth))) == "";
        case _ =>
          LeafDeepTwice(p, v, key, depth);
      }
    }
  }

  /** For every tree within the node limit, however deep and broad and whatever its keys: redacting
      again changes nothing exactly when every leaf that is reached and stays is settled, and so is
      every mark that a second pass can visit. */
  lemma RedactTwiceWithinNodesIff(p: Policy, v: Json)
    requires Nodes(v) <= p.maxNodes
    ensures Redact(p, Redact(p, v)) == Redact(p, v) <==> SettledDeep(p, v, "", 0)
  {
    VisitIsDeep(p, v, "", 0, 0);
    DeepShrinks(p, v, "", 0);
    VisitIsDeep(p, Deep(p, v, "", 0), "", 0, 0);
    DeepTwice(p, v, "", 0);
  }
}
