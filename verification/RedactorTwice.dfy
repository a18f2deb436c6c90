/** When redacting a second time changes nothing. Two exact answers: within the limits for any keys,
    and under any limits for keys that stay apart when they are cut; and a witness that nothing
    simpler holds when both fail. */
module RedactorTwice {
  import opened Redactor

  function Rewrite(p: Policy, key: string, text: string): string {
    if p.kind(key) == Path then p.path(text) else p.plain(text)
  }

  /** The sentinel or text that a leaf becomes under this key stays when it is read as a text. */
  predicate SettledLeaf(p: Policy, v: Json, key: string)
    requires !v.Dict? && !v.Seq?
  {
    match v
    case Str(text) => Rewrite(p, key, Rewrite(p, key, text)) == Rewrite(p, key, text)
    case Bytes => Rewrite(p, key, BYTES) == BYTES
    case NonFinite => p.kind(key) != Error && Rewrite(p, key, NON_FINITE) == NON_FINITE
    case Other => Rewrite(p, key, UNSUPPORTED) == UNSUPPORTED
    case _ => true
  }

  /** A later entry takes this one's key. */
  predicate Later(ms: seq<Member>, key: string) { exists m | m in ms :: SafeKey(m.key) == key }

  /** Every leaf that is reached and not overwritten is settled. */
  predicate Settled(p: Policy, v: Json, key: string)
    decreases v
  {
    Shield(p.kind(key), v) != "" ||
    match v
    case Dict(members) => SettledMembers(p, members)
    case Seq(items) => SettledItems(p, items)
    case _ => SettledLeaf(p, v, key)
  }

  predicate SettledMembers(p: Policy, ms: seq<Member>)
    decreases ms
  {
    ms == [] ||
    (&& (Later(ms[1..], SafeKey(ms[0].key)) || Settled(p, ms[0].value, SafeKey(ms[0].key)))
     && SettledMembers(p, ms[1..]))
  }

  predicate SettledItems(p: Policy, items: seq<Json>)
    decreases items
  {
    items == [] || (Settled(p, items[0], "") && SettledItems(p, items[1..]))
  }

  // ---- Within the limits ----

  /** Redacting leaves `v` as it is. */
  predicate Fixed(p: Policy, v: Json, key: string) { Simple(p, v, key) == v }

  predicate Unique(ms: seq<Member>) {
    && (forall i, j :: 0 <= i < j < |ms| ==> ms[i].key != ms[j].key)
    && (forall m :: m in ms ==> SafeKey(m.key) == m.key)
  }

  lemma SafeKeyTwice(key: string)
    ensures SafeKey(SafeKey(key)) == SafeKey(key)
  {
  }

  /** A sentinel is shielded by itself; what is not shielded stays open as the same kind of value. */
  lemma ShieldAgain(kind: Kind, v: Json)
    ensures var s := Shield(kind, v); s != "" ==> Shield(kind, Str(s)) == s
  {
  }

  lemma ErrorText(text: string)
    ensures Shield(Error, Str(text)) == ERROR && ERROR != NON_FINITE && ERROR != ""
  {
    assert NON_FINITE[1] == 'n' && ERROR[1] == 'r';
  }

  lemma OpenLeaf(p: Policy, v: Json, key: string)
    requires !v.Dict? && !v.Seq? && Shield(p.kind(key), v) == ""
    ensures Simple(p, Leaf(p, v, key), key) == Leaf(p, v, key) <==> SettledLeaf(p, v, key)
  {
    var w := Leaf(p, v, key);
    if v.NonFinite? && p.kind(key) == Error {
      ErrorText(NON_FINITE);
    } else if w.Str? {
      OpenText(p, w.text, key);
    }
  }

  lemma OpenText(p: Policy, text: string, key: string)
    requires p.kind(key) == Path || p.kind(key) == Normal
    ensures Simple(p, Str(text), key) == Str(Rewrite(p, key, text))
  {
  }

  lemma LeafTwice(p: Policy, v: Json, key: string)
    requires !v.Dict? && !v.Seq?
    ensures Fixed(p, Simple(p, v, key), key) <==> Settled(p, v, key)
  {
    if Shield(p.kind(key), v) != "" {
      ShieldAgain(p.kind(key), v);
    } else {
      OpenLeaf(p, v, key);
    }
  }

  lemma {:induction false} PutUnique(ms: seq<Member>, key: string, v: Json)
    requires Unique(ms) && SafeKey(key) == key
    ensures var r := Put(ms, key, v);
            && Unique(r)
            && (forall m :: m in r <==> (m in ms && m.key != key) || m == Member(key, v))
    decreases |ms|
  {
    var r := Put(ms, key, v);
    if ms != [] {
      assert ms == [ms[0]] + ms[1..];
      if ms[0].key == key {
        assert r == [Member(key, v)] + ms[1..];
      } else {
        PutUnique(ms[1..], key, v);
        assert r == [ms[0]] + Put(ms[1..], key, v);
      }
    }
  }

  /** The entries that are not overwritten later are fixed. */
  predicate Kept(p: Policy, done: seq<Member>, ms: seq<Member>) {
    forall m :: m in done ==> Later(ms, m.key) || Fixed(p, m.value, m.key)
  }

  lemma LaterOr(ms: seq<Member>, key: string)
    requires ms != []
    ensures Later(ms, key) <==> SafeKey(ms[0].key) == key || Later(ms[1..], key)
  {
    assert ms == [ms[0]] + ms[1..];
  }

  lemma KeptStep(p: Policy, done: seq<Member>, ms: seq<Member>, w: Json)
    requires ms != [] && Unique(done)
    ensures var key := SafeKey(ms[0].key);
            && Unique(Put(done, key, w))
            && (Kept(p, Put(done, key, w), ms[1..])
                <==> Kept(p, done, ms) && (Later(ms[1..], key) || Fixed(p, w, key)))
  {
    var key := SafeKey(ms[0].key);
    var r := Put(done, key, w);
    SafeKeyTwice(ms[0].key);
    PutUnique(done, key, w);
    assert Member(key, w) in r;
    forall m | m in done
      ensures Later(ms, m.key) <==> m.key == key || Later(ms[1..], m.key)
    {
      LaterOr(ms, m.key);
    }
    if Kept(p, r, ms[1..]) {
      forall m | m in done
        ensures Later(ms, m.key) || Fixed(p, m.value, m.key)
      {
        assert m.key != key ==> m in r;
      }
    }
  }

  /** With the recursion's result for every value: the merged entries are fixed exactly when the
      ones that stay are settled. */
  lemma {:induction false} MembersTwice(p: Policy, ms: seq<Member>, done: seq<Member>)
    requires Unique(done)
    ensures var r := SimpleMembers(p, ms, done);
            Unique(r) && (Kept(p, r, []) <==> Kept(p, done, ms) && SettledMembers(p, ms))
    decreases ms, 0
  {
    if ms != [] {
      var key := SafeKey(ms[0].key);
      var w := Simple(p, ms[0].value, key);
      SimpleTwice(p, ms[0].value, key);
      KeptStep(p, done, ms, w);
      MembersTwice(p, ms[1..], Put(done, key, w));
    }
  }

  /** Distinct short keys: the pass keeps the keys and their order. */
  lemma {:induction false} UniqueFixed(p: Policy, done: seq<Member>, ms: seq<Member>)
    requires Unique(done + ms)
    ensures SimpleMembers(p, ms, done) == done + ms <==> Kept(p, ms, [])
    ensures |SimpleMembers(p, ms, done)| == |done + ms|
    ensures SimpleMembers(p, ms, done)[..|done|] == done
    decreases |ms|
  {
    if ms == [] {
      assert done + ms == done;
    } else {
      var m := Member(ms[0].key, Simple(p, ms[0].value, ms[0].key));
      assert (done + ms)[|done|] == ms[0];
      SameKeys(done, m, ms);
      PutAtEnd(done, m.key, m.value);
      UniqueFixed(p, done + [m], ms[1..]);
      FixedStep(p, done, m, ms);
    }
  }

  lemma {:induction false} PutAtEnd(ms: seq<Member>, key: string, v: Json)
    requires forall m :: m in ms ==> m.key != key
    ensures Put(ms, key, v) == ms + [Member(key, v)]
    decreases |ms|
  {
    if ms != [] {
      PutAtEnd(ms[1..], key, v);
      assert ms + [Member(key, v)] == [ms[0]] + (ms[1..] + [Member(key, v)]);
    }
  }

  lemma SameKeys(done: seq<Member>, m: Member, ms: seq<Member>)
    requires ms != [] && m.key == ms[0].key && Unique(done + ms)
    ensures Unique((done + [m]) + ms[1..])
    ensures SafeKey(m.key) == m.key && forall d :: d in done ==> d.key != m.key
  {
    var a, b := done + ms, (done + [m]) + ms[1..];
    assert |a| == |b| && a[|done|] == ms[0];
    assert forall i :: 0 <= i < |a| ==> b[i].key == a[i].key;
    assert forall i :: 0 <= i < |done| ==> a[i] == done[i];
    forall d | d in b
      ensures SafeKey(d.key) == d.key
    {
      var i :| 0 <= i < |b| && b[i] == d;
      assert a[i] in a;
    }
  }

  lemma FixedStep(p: Policy, done: seq<Member>, m: Member, ms: seq<Member>)
    requires ms != [] && m == Member(ms[0].key, Simple(p, ms[0].value, ms[0].key))
    requires var r := SimpleMembers(p, ms[1..], done + [m]);
             && |r| == |(done + [m]) + ms[1..]| && r[..|done + [m]|] == done + [m]
             && (r == (done + [m]) + ms[1..] <==> Kept(p, ms[1..], []))
    ensures var r := SimpleMembers(p, ms[1..], done + [m]);
            && (r == done + ms <==> Kept(p, ms, [])) && r[..|done|] == done
  {
    PrefixGrows(SimpleMembers(p, ms[1..], done + [m]), done, m, ms);
    assert ms == [ms[0]] + ms[1..];
  }

  lemma PrefixGrows(r: seq<Member>, done: seq<Member>, m: Member, ms: seq<Member>)
    requires ms != [] && |r| == |done| + |ms| && r[..|done + [m]|] == done + [m]
    ensures r[..|done|] == done
    ensures r == done + ms <==> m == ms[0] && r == (done + [m]) + ms[1..]
  {
    assert r[|done|] == r[..|done + [m]|][|done|] == m;
    assert r[..|done|] == r[..|done + [m]|][..|done|];
    assert (done + ms)[|done|] == ms[0];
    if m == ms[0] {
      assert done + ms == (done + [m]) + ms[1..];
    }
  }

  lemma {:induction false} ItemsTwice(p: Policy, items: seq<Json>)
    ensures var r := SimpleItems(p, items);
            SimpleItems(p, r) == r <==> SettledItems(p, items)
    decreases items, 0
  {
    if items != [] {
      SimpleTwice(p, items[0], "");
      ItemsTwice(p, items[1..]);
      var r := SimpleItems(p, items);
      assert r[1..] == SimpleItems(p, items[1..]);
      assert SimpleItems(p, r)[1..] == SimpleItems(p, r[1..]);
    }
  }

  /** Without limits, for every tree and key: a second pass changes nothing exactly when every leaf
      that is reached and stays is settled. */
  lemma {:induction false} SimpleTwice(p: Policy, v: Json, key: string)
    ensures Fixed(p, Simple(p, v, key), key) <==> Settled(p, v, key)
    decreases v, 1
  {
    match v {
      case Dict(members) =>
        MembersTwice(p, members, []);
        DictTwice(p, members, key);
      case Seq(items) =>
        ItemsTwice(p, items);
        SeqTwice(p, items, key);
      case _ =>
        LeafTwice(p, v, key);
    }
  }

  lemma OpenDict(kind: Kind, ms: seq<Member>, r: seq<Member>)
    ensures Shield(kind, Dict(r)) == Shield(kind, Dict(ms))
  {
  }

  lemma AllFixed(p: Policy, r: seq<Member>)
    requires Unique(r)
    ensures SimpleMembers(p, r, []) == r <==> Kept(p, r, [])
  {
    assert [] + r == r;
    UniqueFixed(p, [], r);
  }

  lemma DictTwice(p: Policy, ms: seq<Member>, key: string)
    requires var r := SimpleMembers(p, ms, []); Unique(r) && (Kept(p, r, []) <==> SettledMembers(p, ms))
    ensures Fixed(p, Simple(p, Dict(ms), key), key) <==> Settled(p, Dict(ms), key)
  {
    var r := SimpleMembers(p, ms, []);
    if Shield(p.kind(key), Dict(ms)) != "" {
      ShieldAgain(p.kind(key), Dict(ms));
    } else {
      AllFixed(p, r);
      OpenDict(p.kind(key), ms, r);
      DictAgain(p, ms, r, key);
    }
  }

  lemma DictAgain(p: Policy, ms: seq<Member>, r: seq<Member>, key: string)
    requires Shield(p.kind(key), Dict(ms)) == Shield(p.kind(key), Dict(r)) == ""
    ensures Simple(p, Dict(ms), key) == Dict(SimpleMembers(p, ms, []))
    ensures Simple(p, Dict(r), key) == Dict(SimpleMembers(p, r, []))
    ensures Settled(p, Dict(ms), key) <==> SettledMembers(p, ms)
  {
  }

  lemma SeqTwice(p: Policy, items: seq<Json>, key: string)
    requires var r := SimpleItems(p, items); SimpleItems(p, r) == r <==> SettledItems(p, items)
    ensures Fixed(p, Simple(p, Seq(items), key), key) <==> Settled(p, Seq(items), key)
  {
    if Shield(p.kind(key), Seq(items)) != "" {
      ShieldAgain(p.kind(key), Seq(items));
    } else {
      assert Shield(p.kind(key), Seq(SimpleItems(p, items))) == "";
    }
  }

  lemma {:induction false} PutNodes(ms: seq<Member>, key: string, v: Json)
    ensures MembersNodes(Put(ms, key, v)) <= MembersNodes(ms) + Nodes(v)
    decreases |ms|
  {
    var r := Put(ms, key, v);
    if ms == [] {
      assert r[1..] == [];
    } else if ms[0].key == key {
      assert r[1..] == ms[1..];
    } else {
      PutNodes(ms[1..], key, v);
      assert r[1..] == Put(ms[1..], key, v);
    }
  }

  /** Redacting never makes a tree higher, wider or larger. */
  lemma {:induction false} SimpleShrinks(p: Policy, v: Json, key: string, w: nat)
    requires Within(v, w)
    ensures var r := Simple(p, v, key); Height(r) <= Height(v) && Nodes(r) <= Nodes(v) && Within(r, w)
    decreases v
  {
    match v {
      case Dict(members) => MembersShrink(p, members, [], w);
      case Seq(items) => ItemsShrink(p, items, w);
      case _ =>
    }
  }

  lemma {:induction false} MembersShrink(p: Policy, ms: seq<Member>, done: seq<Member>, w: nat)
    requires MembersWithin(ms, w) && MembersWithin(done, w)
    ensures var r := SimpleMembers(p, ms, done);
            && MembersHeight(r) <= Max(MembersHeight(done), MembersHeight(ms))
            && MembersNodes(r) <= MembersNodes(done) + MembersNodes(ms)
            && |r| <= |done| + |ms| && MembersWithin(r, w)
    decreases ms
  {
    if ms != [] {
      var key := SafeKey(ms[0].key);
      var v := Simple(p, ms[0].value, key);
      SimpleShrinks(p, ms[0].value, key, w);
      PutSizes(done, key, v, w);
      PutNodes(done, key, v);
      MembersShrink(p, ms[1..], Put(done, key, v), w);
    }
  }

  lemma {:induction false} ItemsShrink(p: Policy, items: seq<Json>, w: nat)
    requires ItemsWithin(items, w)
    ensures var r := SimpleItems(p, items);
            && ItemsHeight(r) <= ItemsHeight(items) && ItemsNodes(r) <= ItemsNodes(items)
            && |r| == |items| && ItemsWithin(r, w)
    decreases items
  {
    if items != [] {
      SimpleShrinks(p, items[0], "", w);
      ItemsShrink(p, items[1..], w);
      assert SimpleItems(p, items)[1..] == SimpleItems(p, items[1..]);
    }
  }

  /** For every tree within the limits, whatever its keys: redacting again changes nothing exactly
      when every leaf that is reached and stays is settled. */
  lemma RedactTwiceIff(p: Policy, v: Json)
    requires Height(v) <= p.maxDepth && Nodes(v) <= p.maxNodes && Within(v, p.maxItems)
    ensures Redact(p, Redact(p, v)) == Redact(p, v) <==> Settled(p, v, "")
  {
    LimitsNeverBite(p, v);
    SimpleShrinks(p, v, "", p.maxItems);
    LimitsNeverBite(p, Simple(p, v, ""));
    SimpleTwice(p, v, "");
  }

  // ---- When the rewritings of text are gentle ----

  /** Rewriting text twice is rewriting it once, and the other sentinels are left alone. */
  ghost predicate Gentle(p: Policy) {
    && (forall s :: p.plain(p.plain(s)) == p.plain(s) && p.path(p.path(s)) == p.path(s))
    && (forall s :: s in [BYTES, NON_FINITE, UNSUPPORTED] ==> p.plain(s) == s && p.path(s) == s)
  }

  /** No non-finite number that stays is reached under an error key. */
  predicate Calm(p: Policy, v: Json, key: string)
    decreases v
  {
    Shield(p.kind(key), v) != "" ||
    match v
    case Dict(members) => CalmMembers(p, members)
    case Seq(items) => CalmItems(p, items)
    case _ => v.NonFinite? ==> p.kind(key) != Error
  }

  predicate CalmMembers(p: Policy, ms: seq<Member>)
    decreases ms
  {
    ms == [] ||
    (&& (Later(ms[1..], SafeKey(ms[0].key)) || Calm(p, ms[0].value, SafeKey(ms[0].key)))
     && CalmMembers(p, ms[1..]))
  }

  predicate CalmItems(p: Policy, items: seq<Json>)
    decreases items
  {
    items == [] || (Calm(p, items[0], "") && CalmItems(p, items[1..]))
  }

  lemma {:induction false} GentleSettled(p: Policy, v: Json, key: string)
    requires Gentle(p)
    ensures Settled(p, v, key) <==> Calm(p, v, key)
    decreases v
  {
    match v {
      case Dict(members) => GentleMembers(p, members);
      case Seq(items) => GentleItems(p, items);
      case _ => assert SettledLeaf(p, v, key) <==> (v.NonFinite? ==> p.kind(key) != Error);
    }
  }

  lemma {:induction false} GentleMembers(p: Policy, ms: seq<Member>)
    requires Gentle(p)
    ensures SettledMembers(p, ms) <==> CalmMembers(p, ms)
    decreases ms
  {
    if ms != [] {
      GentleSettled(p, ms[0].value, SafeKey(ms[0].key));
      GentleMembers(p, ms[1..]);
    }
  }

  lemma {:induction false} GentleItems(p: Policy, items: seq<Json>)
    requires Gentle(p)
    ensures SettledItems(p, items) <==> CalmItems(p, items)
    decreases items
  {
    if items != [] {
      GentleSettled(p, items[0], "");
      GentleItems(p, items[1..]);
    }
  }

  /** With gentle rewritings the sentinel of a non-finite number under an error key is all that a
      second pass can change. */
  lemma GentleTwiceIff(p: Policy, v: Json)
    requires Gentle(p)
    requires Height(v) <= p.maxDepth && Nodes(v) <= p.maxNodes && Within(v, p.maxItems)
    ensures Redact(p, Redact(p, v)) == Redact(p, v) <==> Calm(p, v, "")
  {
    RedactTwiceIff(p, v);
    GentleSettled(p, v, "");
  }

  // ---- Under any limits ----

  /** Keys stay apart when they are cut, and none is the one that marks left-out entries. */
  predicate Apart(v: Json)
    decreases v
  {
    match v
    case Dict(members) => ApartMembers(members)
    case Seq(items) => ApartItems(items)
    case _ => true
  }

  predicate ApartMembers(ms: seq<Member>)
    decreases ms
  {
    ms == [] ||
    (&& !Later(ms[1..], SafeKey(ms[0].key)) && SafeKey(ms[0].key) != ITEMS_KEY
     && Apart(ms[0].value) && ApartMembers(ms[1..]))
  }

  predicate ApartItems(items: seq<Json>)
    decreases items
  {
    items == [] || (Apart(items[0]) && ApartItems(items[1..]))
  }

  /** The counter after a visit, told from the tree alone. */
  function Cost(p: Policy, v: Json, key: string, depth: nat, nodes: nat): nat
    decreases v
  {
    if depth > p.maxDepth || nodes + 1 > p.maxNodes || Shield(p.kind(key), v) != "" then nodes + 1
    else
      match v
      case Dict(members) => CostOfMembers(p, members, 0, depth, nodes + 1)
      case Seq(items) => CostOfItems(p, items, 0, depth, nodes + 1)
      case _ => nodes + 1
  }

  function CostOfMembers(p: Policy, ms: seq<Member>, index: nat, depth: nat, nodes: nat): nat
    decreases ms
  {
    if ms == [] || index >= p.maxItems then nodes
    else CostOfMembers(p, ms[1..], index + 1, depth, Cost(p, ms[0].value, SafeKey(ms[0].key), depth + 1, nodes))
  }

  function CostOfItems(p: Policy, items: seq<Json>, index: nat, depth: nat, nodes: nat): nat
    decreases items
  {
    if items == [] || index >= p.maxItems then nodes
    else CostOfItems(p, items[1..], index + 1, depth, Cost(p, items[0], "", depth + 1, nodes))
  }

  lemma {:induction false} VisitCosts(p: Policy, v: Json, key: string, depth: nat, nodes: nat)
    ensures Visit(p, v, key, depth, nodes).nodes == Cost(p, v, key, depth, nodes)
    decreases v
  {
    match v {
      case Dict(members) => MembersCost(p, members, 0, depth, nodes + 1, []);
      case Seq(items) => ItemsCost(p, items, 0, depth, nodes + 1, []);
      case _ =>
    }
  }

  lemma {:induction false} MembersCost(p: Policy, ms: seq<Member>, index: nat, depth: nat, nodes: nat, done: seq<Member>)
    ensures VisitMembers(p, ms, index, depth, nodes, done).nodes == CostOfMembers(p, ms, index, depth, nodes)
    decreases ms
  {
    if ms != [] && index < p.maxItems {
      var key := SafeKey(ms[0].key);
      var out := Visit(p, ms[0].value, key, depth + 1, nodes);
      VisitCosts(p, ms[0].value, key, depth + 1, nodes);
      MembersCost(p, ms[1..], index + 1, depth, out.nodes, Put(done, key, out.value));
    }
  }

  lemma {:induction false} ItemsCost(p: Policy, items: seq<Json>, index: nat, depth: nat, nodes: nat, done: seq<Json>)
    ensures VisitItems(p, items, index, depth, nodes, done).nodes == CostOfItems(p, items, index, depth, nodes)
    decreases items
  {
    if items != [] && index < p.maxItems {
      var out := Visit(p, items[0], "", depth + 1, nodes);
      VisitCosts(p, items[0], "", depth + 1, nodes);
      ItemsCost(p, items[1..], index + 1, depth, out.nodes, done + [out.value]);
    }
  }

  /** Every leaf that a visit reaches within the limits is settled. */
  predicate SettledVisit(p: Policy, v: Json, key: string, depth: nat, nodes: nat)
    decreases v
  {
    depth > p.maxDepth || nodes + 1 > p.maxNodes || Shield(p.kind(key), v) != "" ||
    match v
    case Dict(members) => SettledEntries(p, members, 0, depth, nodes + 1)
    case Seq(items) => SettledElements(p, items, 0, depth, nodes + 1)
    case _ => SettledLeaf(p, v, key)
  }

  predicate SettledEntries(p: Policy, ms: seq<Member>, index: nat, depth: nat, nodes: nat)
    decreases ms
  {
    ms == [] || index >= p.maxItems ||
    (var key := SafeKey(ms[0].key);
     && SettledVisit(p, ms[0].value, key, depth + 1, nodes)
     && SettledEntries(p, ms[1..], index + 1, depth, Cost(p, ms[0].value, key, depth + 1, nodes)))
  }

  predicate SettledElements(p: Policy, items: seq<Json>, index: nat, depth: nat, nodes: nat)
    decreases items
  {
    items == [] || index >= p.maxItems ||
    (&& SettledVisit(p, items[0], "", depth + 1, nodes)
     && SettledElements(p, items[1..], index + 1, depth, Cost(p, items[0], "", depth + 1, nodes)))
  }

  /** The dictionary loop when no key comes twice: the entries one after the other. */
  function Entries(p: Policy, ms: seq<Member>, index: nat, depth: nat, nodes: nat): Out<seq<Member>>
    decreases ms
  {
    if ms == [] then Out([], nodes)
    else if index >= p.maxItems then Out([Member(ITEMS_KEY, Str(BOUND))], nodes)
    else
      var key := SafeKey(ms[0].key);
      var out := Visit(p, ms[0].value, key, depth + 1, nodes);
      var rest := Entries(p, ms[1..], index + 1, depth, out.nodes);
      Out([Member(key, out.value)] + rest.value, rest.nodes)
  }

  function Elements(p: Policy, items: seq<Json>, index: nat, depth: nat, nodes: nat): Out<seq<Json>>
    decreases items
  {
    if items == [] then Out([], nodes)
    else if index >= p.maxItems then Out([Str(BOUND)], nodes)
    else
      var out := Visit(p, items[0], "", depth + 1, nodes);
      var rest := Elements(p, items[1..], index + 1, depth, out.nodes);
      Out([out.value] + rest.value, rest.nodes)
  }

  /** None of the keys is taken yet, and they differ among themselves once cut; the mark of
      left-out entries may only come last. */
  ghost predicate New(done: seq<Member>, ms: seq<Member>) {
    && (forall m, d :: m in ms && d in done ==> SafeKey(m.key) != d.key)
    && (forall d :: d in done ==> d.key != ITEMS_KEY)
    && (forall i, j :: 0 <= i < j < |ms| ==> SafeKey(ms[i].key) != SafeKey(ms[j].key) && SafeKey(ms[i].key) != ITEMS_KEY)
  }

  lemma NewTail(done: seq<Member>, ms: seq<Member>, v: Json)
    requires New(done, ms) && |ms| > 0
    ensures forall d :: d in done ==> d.key != SafeKey(ms[0].key)
    ensures |ms| > 1 ==> New(done + [Member(SafeKey(ms[0].key), v)], ms[1..])
  {
    assert ms[0] in ms;
    if |ms| > 1 {
      var m := Member(SafeKey(ms[0].key), v);
      forall x, d | x in ms[1..] && d in done + [m]
        ensures SafeKey(x.key) != d.key
      {
        var i :| 0 <= i < |ms[1..]| && ms[1..][i] == x;
        assert ms[i + 1] == x && x in ms;
        assert d == m ==> SafeKey(ms[0].key) != SafeKey(ms[i + 1].key);
      }
      assert SafeKey(ms[0].key) != SafeKey(ms[1].key) && m.key != ITEMS_KEY;
      assert forall i :: 0 <= i < |ms[1..]| ==> ms[1..][i] == ms[i + 1];
    }
  }

  lemma {:induction false} LoopIsEntries(p: Policy, ms: seq<Member>, index: nat, depth: nat, nodes: nat, done: seq<Member>)
    requires New(done, ms)
    ensures var out := Entries(p, ms, index, depth, nodes);
            VisitMembers(p, ms, index, depth, nodes, done) == Out(done + out.value, out.nodes)
    decreases ms
  {
    if ms == [] {
      assert done + [] == done;
    } else if index >= p.maxItems {
      PutAtEnd(done, ITEMS_KEY, Str(BOUND));
    } else {
      var key := SafeKey(ms[0].key);
      var out := Visit(p, ms[0].value, key, depth + 1, nodes);
      NewTail(done, ms, out.value);
      PutAtEnd(done, key, out.value);
      if |ms| > 1 {
        LoopIsEntries(p, ms[1..], index + 1, depth, out.nodes, done + [Member(key, out.value)]);
      } else {
        NothingMore(p, ms[1..], index + 1, depth, out.nodes, done + [Member(key, out.value)]);
      }
      RegroupMembers(done, Member(key, out.value), Entries(p, ms[1..], index + 1, depth, out.nodes).value);
    }
  }

  lemma NothingMore(p: Policy, ms: seq<Member>, index: nat, depth: nat, nodes: nat, done: seq<Member>)
    requires ms == []
    ensures VisitMembers(p, ms, index, depth, nodes, done) == Out(done, nodes)
    ensures Entries(p, ms, index, depth, nodes) == Out([], nodes) && done + [] == done
  {
  }

  lemma RegroupMembers(a: seq<Member>, m: Member, b: seq<Member>)
    ensures (a + [m]) + b == a + ([m] + b)
  {
  }

  lemma {:induction false} LoopIsElements(p: Policy, items: seq<Json>, index: nat, depth: nat, nodes: nat, done: seq<Json>)
    ensures var out := Elements(p, items, index, depth, nodes);
            VisitItems(p, items, index, depth, nodes, done) == Out(done + out.value, out.nodes)
    decreases items
  {
    if items == [] {
      assert done + [] == done;
    } else if index < p.maxItems {
      var out := Visit(p, items[0], "", depth + 1, nodes);
      LoopIsElements(p, items[1..], index + 1, depth, out.nodes, done + [out.value]);
      Regroup(done, out.value, Elements(p, items[1..], index + 1, depth, out.nodes).value);
    }
  }

  /** The keys that come out are the cut keys, in order, and perhaps the mark at the end. */
  lemma {:induction false} EntriesAreNew(p: Policy, ms: seq<Member>, index: nat, depth: nat, nodes: nat)
    requires ApartMembers(ms)
    ensures New([], Entries(p, ms, index, depth, nodes).value)
    ensures forall e :: e in Entries(p, ms, index, depth, nodes).value ==> e.key == ITEMS_KEY || Later(ms, e.key)
    decreases ms
  {
    if ms != [] && index < p.maxItems {
      var key := SafeKey(ms[0].key);
      var out := Visit(p, ms[0].value, key, depth + 1, nodes);
      var rest := Entries(p, ms[1..], index + 1, depth, out.nodes).value;
      EntriesAreNew(p, ms[1..], index + 1, depth, out.nodes);
      EntriesAreShort(p, ms[1..], index + 1, depth, out.nodes);
      SafeKeyTwice(ms[0].key);
      NewHead(key, out.value, rest, ms[1..]);
      forall e | e in [Member(key, out.value)] + rest
        ensures e.key == ITEMS_KEY || Later(ms, e.key)
      {
        assert ms[0] in ms;
        LaterOr(ms, e.key);
      }
    }
  }

  lemma NewHead(key: string, v: Json, rest: seq<Member>, ms: seq<Member>)
    requires New([], rest) && SafeKey(key) == key && key != ITEMS_KEY && !Later(ms, key)
    requires forall e :: e in rest ==> e.key == ITEMS_KEY || Later(ms, e.key)
    requires forall e :: e in rest ==> SafeKey(e.key) == e.key
    ensures New([], [Member(key, v)] + rest)
  {
    var all := [Member(key, v)] + rest;
    forall i, j | 0 <= i < j < |all|
      ensures SafeKey(all[i].key) != SafeKey(all[j].key) && SafeKey(all[i].key) != ITEMS_KEY
    {
      assert all[j] == rest[j - 1] && rest[j - 1] in rest;
      if i > 0 {
        assert all[i] == rest[i - 1];
      }
    }
  }

  lemma {:induction false} EntriesAreShort(p: Policy, ms: seq<Member>, index: nat, depth: nat, nodes: nat)
    ensures forall e :: e in Entries(p, ms, index, depth, nodes).value ==> SafeKey(e.key) == e.key
    decreases ms
  {
    if ms != [] && index < p.maxItems {
      SafeKeyTwice(ms[0].key);
      var out := Visit(p, ms[0].value, SafeKey(ms[0].key), depth + 1, nodes);
      EntriesAreShort(p, ms[1..], index + 1, depth, out.nodes);
    } else if ms != [] {
      assert |ITEMS_KEY| <= KEY_LIMIT;
    }
  }

  /** The second pass over what a visit put out, from the same place: it counts the same, and it
      puts out the same exactly when the visit's leaves are settled. */
  predicate Again(p: Policy, v: Json, key: string, depth: nat, nodes: nat) {
    var out := Visit(p, v, key, depth, nodes);
    var again := Visit(p, out.value, key, depth, nodes);
    again.nodes == out.nodes && (again.value == out.value <==> SettledVisit(p, v, key, depth, nodes))
  }

  lemma {:induction false} EntriesAgain(p: Policy, ms: seq<Member>, index: nat, depth: nat, nodes: nat)
    requires ApartMembers(ms)
    ensures var out := Entries(p, ms, index, depth, nodes);
            var again := Entries(p, out.value, index, depth, nodes);
            again.nodes == out.nodes && (again.value == out.value <==> SettledEntries(p, ms, index, depth, nodes))
    decreases ms, 0
  {
    if ms != [] && index < p.maxItems {
      var key := SafeKey(ms[0].key);
      SafeKeyTwice(ms[0].key);
      var out := Visit(p, ms[0].value, key, depth + 1, nodes);
      VisitAgain(p, ms[0].value, key, depth + 1, nodes);
      VisitCosts(p, ms[0].value, key, depth + 1, nodes);
      EntriesAgain(p, ms[1..], index + 1, depth, out.nodes);
      EntryAgain(p, Member(key, out.value), Entries(p, ms[1..], index + 1, depth, out.nodes).value, index, depth, nodes);
    }
  }

  lemma EntryAgain(p: Policy, m: Member, rest: seq<Member>, index: nat, depth: nat, nodes: nat)
    requires index < p.maxItems && SafeKey(m.key) == m.key
    ensures var first := Visit(p, m.value, m.key, depth + 1, nodes);
            var more := Entries(p, rest, index + 1, depth, first.nodes);
            && Entries(p, [m] + rest, index, depth, nodes) == Out([Member(m.key, first.value)] + more.value, more.nodes)
            && ([Member(m.key, first.value)] + more.value == [m] + rest <==> first.value == m.value && more.value == rest)
  {
    var first := Visit(p, m.value, m.key, depth + 1, nodes);
    var more := Entries(p, rest, index + 1, depth, first.nodes);
    assert ([m] + rest)[1..] == rest;
    SameCons(Member(m.key, first.value), more.value, m, rest);
  }

  lemma SameCons<T>(a: T, s: seq<T>, b: T, t: seq<T>)
    ensures [a] + s == [b] + t <==> a == b && s == t
  {
    assert ([a] + s)[0] == a && ([b] + t)[0] == b;
    assert ([a] + s)[1..] == s && ([b] + t)[1..] == t;
  }

  lemma {:induction false} ElementsAgain(p: Policy, items: seq<Json>, index: nat, depth: nat, nodes: nat)
    requires ApartItems(items)
    ensures var out := Elements(p, items, index, depth, nodes);
            var again := Elements(p, out.value, index, depth, nodes);
            again.nodes == out.nodes && (again.value == out.value <==> SettledElements(p, items, index, depth, nodes))
    decreases items, 0
  {
    if items != [] && index < p.maxItems {
      var out := Visit(p, items[0], "", depth + 1, nodes);
      VisitAgain(p, items[0], "", depth + 1, nodes);
      VisitCosts(p, items[0], "", depth + 1, nodes);
      ElementsAgain(p, items[1..], index + 1, depth, out.nodes);
      ElementAgain(p, out.value, Elements(p, items[1..], index + 1, depth, out.nodes).value, index, depth, nodes);
    }
  }

  lemma ElementAgain(p: Policy, v: Json, rest: seq<Json>, index: nat, depth: nat, nodes: nat)
    requires index < p.maxItems
    ensures var first := Visit(p, v, "", depth + 1, nodes);
            var more := Elements(p, rest, index + 1, depth, first.nodes);
            && Elements(p, [v] + rest, index, depth, nodes) == Out([first.value] + more.value, more.nodes)
            && ([first.value] + more.value == [v] + rest <==> first.value == v && more.value == rest)
  {
    var first := Visit(p, v, "", depth + 1, nodes);
    assert ([v] + rest)[1..] == rest;
    SameCons(first.value, Elements(p, rest, index + 1, depth, first.nodes).value, v, rest);
  }

  lemma {:induction false} VisitAgain(p: Policy, v: Json, key: string, depth: nat, nodes: nat)
    requires Apart(v)
    ensures Again(p, v, key, depth, nodes)
    decreases v, 1
  {
    if depth <= p.maxDepth && nodes + 1 <= p.maxNodes && Shield(p.kind(key), v) == "" {
      match v {
        case Dict(members) =>
          EntriesAgain(p, members, 0, depth, nodes + 1);
          DictAgainWithin(p, members, key, depth, nodes);
        case Seq(items) =>
          ElementsAgain(p, items, 0, depth, nodes + 1);
          SeqAgainWithin(p, items, key, depth, nodes);
        case _ =>
          LeafAgain(p, v, key, depth, nodes);
      }
    } else {
      CoveredAgain(p, v, key, depth, nodes);
    }
  }

  lemma CoveredAgain(p: Policy, v: Json, key: string, depth: nat, nodes: nat)
    requires depth > p.maxDepth || nodes + 1 > p.maxNodes || Shield(p.kind(key), v) != ""
    ensures Again(p, v, key, depth, nodes)
  {
    ShieldAgain(p.kind(key), v);
  }

  lemma LeafAgain(p: Policy, v: Json, key: string, depth: nat, nodes: nat)
    requires !v.Dict? && !v.Seq? && Shield(p.kind(key), v) == ""
    requires depth <= p.maxDepth && nodes + 1 <= p.maxNodes
    ensures Again(p, v, key, depth, nodes)
  {
    OpenLeaf(p, v, key);
    assert Visit(p, v, key, depth, nodes) == Out(Leaf(p, v, key), nodes + 1);
    assert Visit(p, Leaf(p, v, key), key, depth, nodes) == Out(Simple(p, Leaf(p, v, key), key), nodes + 1);
  }

  lemma DictAgainWithin(p: Policy, ms: seq<Member>, key: string, depth: nat, nodes: nat)
    requires ApartMembers(ms) && Shield(p.kind(key), Dict(ms)) == ""
    requires depth <= p.maxDepth && nodes + 1 <= p.maxNodes
    requires var out := Entries(p, ms, 0, depth, nodes + 1);
             var again := Entries(p, out.value, 0, depth, nodes + 1);
             again.nodes == out.nodes && (again.value == out.value <==> SettledEntries(p, ms, 0, depth, nodes + 1))
    ensures Again(p, Dict(ms), key, depth, nodes)
  {
    ApartIsNew(ms);
    DictIsEntries(p, ms, key, depth, nodes);
    var r := Entries(p, ms, 0, depth, nodes + 1).value;
    EntriesAreNew(p, ms, 0, depth, nodes + 1);
    OpenDict(p.kind(key), ms, r);
    DictIsEntries(p, r, key, depth, nodes);
    SettledDict(p, ms, key, depth, nodes);
    Compare(p, Dict(ms), Dict(r), key, depth, nodes);
  }

  lemma SettledDict(p: Policy, ms: seq<Member>, key: string, depth: nat, nodes: nat)
    requires Shield(p.kind(key), Dict(ms)) == "" && depth <= p.maxDepth && nodes + 1 <= p.maxNodes
    ensures SettledVisit(p, Dict(ms), key, depth, nodes) <==> SettledEntries(p, ms, 0, depth, nodes + 1)
  {
  }

  lemma Compare(p: Policy, v: Json, w: Json, key: string, depth: nat, nodes: nat)
    requires var out, again := Visit(p, v, key, depth, nodes), Visit(p, w, key, depth, nodes);
             && out.value == w && again.nodes == out.nodes
             && (again.value == w <==> SettledVisit(p, v, key, depth, nodes))
    ensures Again(p, v, key, depth, nodes)
  {
  }

  lemma {:induction false} ApartIsNew(ms: seq<Member>)
    requires ApartMembers(ms)
    ensures New([], ms)
    decreases ms
  {
    if ms != [] {
      ApartIsNew(ms[1..]);
      forall j | 0 < j < |ms|
        ensures SafeKey(ms[0].key) != SafeKey(ms[j].key)
      {
        assert ms[1..][j - 1] in ms[1..];
      }
      forall i, j | 0 <= i < j < |ms|
        ensures SafeKey(ms[i].key) != SafeKey(ms[j].key) && SafeKey(ms[i].key) != ITEMS_KEY
      {
        if i > 0 {
          assert ms[i] == ms[1..][i - 1] && ms[j] == ms[1..][j - 1];
        }
      }
    }
  }

  lemma DictIsEntries(p: Policy, ms: seq<Member>, key: string, depth: nat, nodes: nat)
    requires New([], ms) && Shield(p.kind(key), Dict(ms)) == ""
    requires depth <= p.maxDepth && nodes + 1 <= p.maxNodes
    ensures var out := Entries(p, ms, 0, depth, nodes + 1);
            Visit(p, Dict(ms), key, depth, nodes) == Out(Dict(out.value), out.nodes)
  {
    LoopIsEntries(p, ms, 0, depth, nodes + 1, []);
    var out := Entries(p, ms, 0, depth, nodes + 1).value;
    assert [] + out == out;
  }

  lemma SeqIsElements(p: Policy, items: seq<Json>, key: string, depth: nat, nodes: nat)
    requires Shield(p.kind(key), Seq(items)) == "" && depth <= p.maxDepth && nodes + 1 <= p.maxNodes
    ensures var out := Elements(p, items, 0, depth, nodes + 1);
            Visit(p, Seq(items), key, depth, nodes) == Out(Seq(out.value), out.nodes)
  {
    LoopIsElements(p, items, 0, depth, nodes + 1, []);
    var out := Elements(p, items, 0, depth, nodes + 1).value;
    assert [] + out == out;
  }

  lemma SeqAgainWithin(p: Policy, items: seq<Json>, key: string, depth: nat, nodes: nat)
    requires Shield(p.kind(key), Seq(items)) == "" && depth <= p.maxDepth && nodes + 1 <= p.maxNodes
    requires var out := Elements(p, items, 0, depth, nodes + 1);
             var again := Elements(p, out.value, 0, depth, nodes + 1);
             again.nodes == out.nodes && (again.value == out.value <==> SettledElements(p, items, 0, depth, nodes + 1))
    ensures Again(p, Seq(items), key, depth, nodes)
  {
    SeqIsElements(p, items, key, depth, nodes);
    SeqIsElements(p, Elements(p, items, 0, depth, nodes + 1).value, key, depth, nodes);
    Compare(p, Seq(items), Seq(Elements(p, items, 0, depth, nodes + 1).value), key, depth, nodes);
  }

  /** For every tree whose cut keys stay apart, however far it exceeds the limits: redacting again
      changes nothing exactly when every leaf that the first pass reached is settled. */
  lemma RedactTwiceApartIff(p: Policy, v: Json)
    requires Apart(v)
    ensures Redact(p, Redact(p, v)) == Redact(p, v) <==> SettledVisit(p, v, "", 0, 0)
  {
    VisitAgain(p, v, "", 0, 0);
  }

  /** One turn of the dictionary loop, on a value that costs one node. */
  lemma OneTurn(p: Policy, m: Member, rest: seq<Member>, index: nat, nodes: nat, done: seq<Member>, key: string, w: Json)
    requires index < p.maxItems && p.maxDepth >= 1 && SafeKey(m.key) == key
    requires !m.value.Dict? && !m.value.Seq?
    requires w == if nodes + 1 > p.maxNodes then Str(BOUND) else Simple(p, m.value, key)
    ensures VisitMembers(p, [m] + rest, index, 0, nodes, done)
            == VisitMembers(p, rest, index + 1, 0, nodes + 1, Put(done, key, w))
  {
    assert ([m] + rest)[1..] == rest;
  }

  lemma PutTwo(a: string, b: string, v: Json, w: Json)
    requires a != b
    ensures Put([Member(a, v)], a, w) == [Member(a, w)]
    ensures Put([Member(a, v)], b, w) == [Member(a, v), Member(b, w)]
  {
    assert [Member(a, v)][1..] == [];
  }

  lemma FirstPass(p: Policy, stem: string)
    requires |stem| == KEY_LIMIT && p.kind(stem) == Normal && p.kind("token") == Secret && stem != "token"
    requires p.maxDepth >= 1 && p.maxItems >= 3 && p.maxNodes == 3
    ensures VisitMembers(p, [Member(stem + "x", Int(1)), Member(stem + "y", Int(2)), Member("token", Str("s"))], 0, 0, 1, [])
            == Out([Member(stem, Int(2)), Member("token", Str(BOUND))], 4)
  {
    var x, y, token := Member(stem + "x", Int(1)), Member(stem + "y", Int(2)), Member("token", Str("s"));
    assert SafeKey(x.key) == stem && SafeKey(y.key) == stem && |"token"| == 5;
    OneTurn(p, x, [y, token], 0, 1, [], stem, Int(1));
    OneTurn(p, y, [token], 1, 2, [Member(stem, Int(1))], stem, Int(2));
    PutTwo(stem, "token", Int(1), Int(2));
    OneTurn(p, token, [], 2, 3, [Member(stem, Int(2))], "token", Str(BOUND));
    PutTwo(stem, "token", Int(2), Str(BOUND));
    assert [x, y, token] == [x] + [y, token] && [y, token] == [y] + [token] && [token] == [token] + [];
  }

  lemma SecondPass(p: Policy, stem: string)
    requires |stem| == KEY_LIMIT && p.kind(stem) == Normal && p.kind("token") == Secret && stem != "token"
    requires p.maxDepth >= 1 && p.maxItems >= 3 && p.maxNodes == 3
    ensures VisitMembers(p, [Member(stem, Int(2)), Member("token", Str(BOUND))], 0, 0, 1, [])
            == Out([Member(stem, Int(2)), Member("token", Str(SECRET))], 3)
  {
    var x, token := Member(stem, Int(2)), Member("token", Str(BOUND));
    assert SafeKey(stem) == stem && |"token"| == 5;
    OneTurn(p, x, [token], 0, 1, [], stem, Int(2));
    OneTurn(p, token, [], 1, 2, [x], "token", Str(SECRET));
    PutTwo(stem, "token", Int(2), Str(SECRET));
    assert [x, token] == [x] + [token] && [token] == [token] + [];
  }

  /** Past the limits with keys that meet when they are cut: the first pass runs out of nodes at the
      token and leaves the mark of a bound, the second has one entry less to visit and reaches it.
      Every leaf is settled. */
  lemma CollisionPastLimit(p: Policy, stem: string)
    requires |stem| == KEY_LIMIT && p.kind(stem) == p.kind("") == Normal && p.kind("token") == Secret
    requires p.maxDepth >= 1 && p.maxItems >= 3 && p.maxNodes == 3
    ensures var v := Dict([Member(stem + "x", Int(1)), Member(stem + "y", Int(2)), Member("token", Str("s"))]);
            Settled(p, v, "") && Redact(p, Redact(p, v)) != Redact(p, v)
  {
    assert |"token"| == 5 && |BOUND| == 16 && |SECRET| == 17;
    FirstPass(p, stem);
    SecondPass(p, stem);
    var ms := [Member(stem + "x", Int(1)), Member(stem + "y", Int(2)), Member("token", Str("s"))];
    var once, twice := [Member(stem, Int(2)), Member("token", Str(BOUND))], [Member(stem, Int(2)), Member("token", Str(SECRET))];
    assert once[1] != twice[1];
    AllSettled(p, ms);
    assert Redact(p, Dict(ms)) == Dict(once) && Redact(p, Dict(once)) == Dict(twice);
  }

  lemma {:induction false} AllSettled(p: Policy, ms: seq<Member>)
    requires forall m :: m in ms ==> m.value.Int? || (p.kind(SafeKey(m.key)) == Secret && m.value.Str?)
    ensures SettledMembers(p, ms)
    decreases |ms|
  {
    if ms != [] {
      assert ms[0] in ms;
      AllSettled(p, ms[1..]);
    }
  }
}
