/** What the redaction makes of a tree, said of the result alone: sentinel by sentinel, entry by entry,
    with the limits where they fall; and the trees it leaves as they are. */
module RedactorImage {
  import opened Redactor
  import opened RedactorTwice

  // ---- Dictionaries ----

  /** Some entry has key `a` before any has key `b`. */
  ghost predicate Before(es: seq<Member>, a: string, b: string) {
    exists i :: 0 <= i < |es| && es[i].key == a && forall h :: 0 <= h <= i ==> es[h].key != b
  }

  /** No later entry has the key of `m`. */
  ghost predicate LastAt(es: seq<Member>, m: Member) {
    exists i :: 0 <= i < |es| && es[i] == m && forall h :: i < h < |es| ==> es[h].key != m.key
  }

  ghost predicate HasKey(es: seq<Member>, key: string) { exists i :: 0 <= i < |es| && es[i].key == key }

  /** `r` is the dictionary of the entries `es`: its keys are theirs, each once and in the order of their
      first appearance, and under each stands the value of its last. */
  ghost predicate LastWins(es: seq<Member>, r: seq<Member>) {
    && (forall a, b :: 0 <= a < b < |r| ==> r[a].key != r[b].key && Before(es, r[a].key, r[b].key))
    && (forall i :: 0 <= i < |es| ==> HasKey(r, es[i].key))
    && (forall a :: 0 <= a < |r| ==> LastAt(es, r[a]))
  }

  /** Assignment to a key that is there, by position. */
  lemma {:induction false} PutOld(r: seq<Member>, key: string, v: Json, at: nat)
    requires at < |r| && r[at].key == key && forall b :: 0 <= b < at ==> r[b].key != key
    ensures Put(r, key, v) == r[at := Member(key, v)]
    decreases |r|
  {
    if at > 0 {
      PutOld(r[1..], key, v, at - 1);
      assert r[at := Member(key, v)] == [r[0]] + r[1..][at - 1 := Member(key, v)];
    } else {
      assert r[0 := Member(key, v)] == [Member(key, v)] + r[1..];
    }
  }

  /** Assigning entry after entry. */
  function PutAll(done: seq<Member>, es: seq<Member>): seq<Member>
    decreases |es|
  {
    if es == [] then done else PutAll(Put(done, es[0].key, es[0].value), es[1..])
  }

  lemma BeforeGrows(es: seq<Member>, m: Member, a: string, b: string)
    requires Before(es, a, b)
    ensures Before(es + [m], a, b)
  {
    var i :| 0 <= i < |es| && es[i].key == a && forall h :: 0 <= h <= i ==> es[h].key != b;
    assert (es + [m])[i].key == a;
  }

  lemma NewIsAfter(es: seq<Member>, m: Member, old': Member)
    requires LastAt(es, old') && !HasKey(es, m.key)
    ensures Before(es + [m], old'.key, m.key)
  {
    var i :| 0 <= i < |es| && es[i] == old';
    assert (es + [m])[i].key == old'.key;
  }

  lemma LastStays(es: seq<Member>, m: Member, old': Member)
    requires LastAt(es, old') && old'.key != m.key
    ensures LastAt(es + [m], old')
  {
    var i :| 0 <= i < |es| && es[i] == old' && forall h :: i < h < |es| ==> es[h].key != old'.key;
    assert (es + [m])[i] == old';
  }

  lemma LastIsLast(es: seq<Member>, m: Member)
    ensures LastAt(es + [m], m)
  {
    assert (es + [m])[|es|] == m;
  }

  /** A key that is there already: its value is replaced in place. */
  lemma Replaced(es: seq<Member>, r: seq<Member>, m: Member, at: nat)
    requires LastWins(es, r) && at < |r| && r[at].key == m.key
    ensures LastWins(es + [m], r[at := m])
  {
    var more, r' := es + [m], r[at := m];
    forall a, b | 0 <= a < b < |r'| ensures r'[a].key != r'[b].key && Before(more, r'[a].key, r'[b].key) {
      BeforeGrows(es, m, r[a].key, r[b].key);
    }
    forall i | 0 <= i < |more| ensures HasKey(r', more[i].key) {
      if i < |es| {
        assert HasKey(r, es[i].key);
        var a :| 0 <= a < |r| && r[a].key == es[i].key;
        assert r'[a].key == more[i].key;
      } else {
        assert r'[at].key == more[i].key;
      }
    }
    LastIsLast(es, m);
    forall a | 0 <= a < |r'| ensures LastAt(more, r'[a]) {
      if a != at { LastStays(es, m, r[a]); }
    }
  }

  /** A new key comes at the end. */
  lemma Added(es: seq<Member>, r: seq<Member>, m: Member)
    requires LastWins(es, r) && !HasKey(r, m.key)
    ensures LastWins(es + [m], r + [m])
  {
    var more, r' := es + [m], r + [m];
    assert !HasKey(es, m.key);
    forall a, b | 0 <= a < b < |r'| ensures r'[a].key != r'[b].key && Before(more, r'[a].key, r'[b].key) {
      if b < |r| { BeforeGrows(es, m, r[a].key, r[b].key); } else { NewIsAfter(es, m, r[a]); }
    }
    forall i | 0 <= i < |more| ensures HasKey(r', more[i].key) {
      if i < |es| {
        assert HasKey(r, es[i].key);
        var a :| 0 <= a < |r| && r[a].key == es[i].key;
        assert r'[a].key == more[i].key;
      } else {
        assert r'[|r|].key == more[i].key;
      }
    }
    LastIsLast(es, m);
    forall a | 0 <= a < |r'| ensures LastAt(more, r'[a]) {
      if a < |r| { LastStays(es, m, r[a]); }
    }
  }

  lemma PutOne(es: seq<Member>, r: seq<Member>, m: Member)
    requires LastWins(es, r)
    ensures LastWins(es + [m], Put(r, m.key, m.value))
  {
    if HasKey(r, m.key) {
      var at :| 0 <= at < |r| && r[at].key == m.key;
      PutOld(r, m.key, m.value, at);
      Replaced(es, r, m, at);
    } else {
      assert forall e :: e in r ==> e.key != m.key;
      PutAtEnd(r, m.key, m.value);
      Added(es, r, m);
    }
  }

  /** Assigning entry after entry makes their dictionary. */
  lemma {:induction false} PutAllIs(pre: seq<Member>, done: seq<Member>, es: seq<Member>)
    requires LastWins(pre, done)
    ensures LastWins(pre + es, PutAll(done, es))
    decreases |es|
  {
    if es == [] {
      assert pre + es == pre;
    } else {
      PutOne(pre, done, es[0]);
      PutAllIs(pre + [es[0]], Put(done, es[0].key, es[0].value), es[1..]);
      assert pre + es == (pre + [es[0]]) + es[1..];
    }
  }

  // ---- The image of a tree ----

  /** `cs` takes the node counter past this visit, and through `k` more, to `after`. */
  predicate Counts(cs: seq<nat>, k: nat, nodes: nat, after: nat) {
    |cs| == k + 1 && cs[0] == nodes + 1 && cs[k] == after
  }

  /** How many of `n` entries are shown. */
  function Shown(n: nat, room: nat): nat { if n < room then n else room }

  /** A value that is neither a list nor a dictionary, under a key of this kind. */
  predicate LeafImage(p: Policy, kind: Kind, v: Json, r: Json) {
    if v.Null? || v.Bool? then r == v
    else match kind
         case Secret => r == Str("<redacted secret>")
         case Id => r == Str("<redacted id>")
         case Page => r == Str("<redacted page body>")
         case Error =>
           if v.Int? || v.Float? then r == v
           else r == Str(if v.NonFinite? then "<non-finite>" else "<redacted error>")
         case _ =>
           if v.Int? || v.Float? then r == v
           else if v.Str? then r == Str(if kind.Path? then p.path(v.text) else p.plain(v.text))
           else if v.Bytes? then r == Str("<redacted bytes>")
           else if v.NonFinite? then r == Str("<non-finite>")
           else r == Str("<redacted:unsupported>")
  }

  /** `r` is what stands for `v` under `key`, `depth` steps down, when `nodes` were visited before it and
      `after` are with it. */
  ghost predicate Image(p: Policy, v: Json, key: string, depth: nat, nodes: nat, r: Json, after: nat)
    decreases v, 1
  {
    var kind := p.kind(key);
    if depth > p.maxDepth || nodes >= p.maxNodes then r == Str("<redacted:bound>") && after == nodes + 1
    else if !(kind.Path? || kind.Normal?) || !(v.Seq? || v.Dict?) then LeafImage(p, kind, v, r) && after == nodes + 1
    else if v.Seq? then
      && r.Seq?
      && exists cs :: Counts(cs, Shown(|v.items|, p.maxItems), nodes, after)
                      && ItemsImage(p, v.items, p.maxItems, depth, cs, r.items)
    else
      && r.Dict?
      && exists cs, es :: Counts(cs, Shown(|v.members|, p.maxItems), nodes, after)
                          && MembersImage(p, v.members, p.maxItems, depth, cs, es) && LastWins(es, r.members)
  }

  /** The first `room` items one by one, and a mark if there are more. */
  ghost predicate ItemsImage(p: Policy, items: seq<Json>, room: nat, depth: nat, cs: seq<nat>, rs: seq<Json>)
    decreases items, 0
  {
    var n, k := |items|, Shown(|items|, room);
    && |cs| == k + 1 && |rs| == (if n > k then k + 1 else k)
    && (n > k ==> rs[k] == Str("<redacted:bound>"))
    && forall i :: 0 <= i < k ==> Image(p, items[i], "", depth + 1, cs[i], rs[i], cs[i + 1])
  }

  /** The first `room` entries one by one, under keys cut to 256 characters, and a mark if there are more. */
  ghost predicate MembersImage(p: Policy, ms: seq<Member>, room: nat, depth: nat, cs: seq<nat>, es: seq<Member>)
    decreases ms, 0
  {
    var n, k := |ms|, Shown(|ms|, room);
    && |cs| == k + 1 && |es| == (if n > k then k + 1 else k)
    && (n > k ==> es[k] == Member("<redacted:items>", Str("<redacted:bound>")))
    && forall i :: 0 <= i < k ==>
         && es[i].key == (if |ms[i].key| > 256 then ms[i].key[..256] else ms[i].key)
         && Image(p, ms[i].value, es[i].key, depth + 1, cs[i], es[i].value, cs[i + 1])
  }

  lemma ItemsCons(p: Policy, items: seq<Json>, room: nat, depth: nat, n: nat, cs: seq<nat>, r: Json, rs: seq<Json>)
    requires items != [] && room > 0 && ItemsImage(p, items[1..], room - 1, depth, cs, rs)
    requires Image(p, items[0], "", depth + 1, n, r, cs[0])
    ensures ItemsImage(p, items, room, depth, [n] + cs, [r] + rs)
  {
    var k, cs', rs' := Shown(|items|, room), [n] + cs, [r] + rs;
    forall i | 0 <= i < k ensures Image(p, items[i], "", depth + 1, cs'[i], rs'[i], cs'[i + 1]) {
      if i > 0 { assert items[1..][i - 1] == items[i] && cs'[i] == cs[i - 1] && rs'[i] == rs[i - 1]; }
    }
  }

  lemma MembersCons(p: Policy, ms: seq<Member>, room: nat, depth: nat, n: nat, cs: seq<nat>, e: Member, es: seq<Member>)
    requires ms != [] && room > 0 && MembersImage(p, ms[1..], room - 1, depth, cs, es)
    requires e.key == SafeKey(ms[0].key) && Image(p, ms[0].value, e.key, depth + 1, n, e.value, cs[0])
    ensures MembersImage(p, ms, room, depth, [n] + cs, [e] + es)
  {
    var k, cs', es' := Shown(|ms|, room), [n] + cs, [e] + es;
    forall i | 0 <= i < k
      ensures es'[i].key == SafeKey(ms[i].key)
      ensures Image(p, ms[i].value, es'[i].key, depth + 1, cs'[i], es'[i].value, cs'[i + 1])
    {
      if i > 0 { assert ms[1..][i - 1] == ms[i] && cs'[i] == cs[i - 1] && es'[i] == es[i - 1]; }
    }
  }

  lemma LeafVisit(p: Policy, v: Json, key: string)
    requires !(p.kind(key).Path? || p.kind(key).Normal?) || !(v.Seq? || v.Dict?)
    ensures var s := Shield(p.kind(key), v);
            && (s == "" ==> !v.Seq? && !v.Dict?)
            && LeafImage(p, p.kind(key), v, if s != "" then Str(s) else Leaf(p, v, key))
  {
  }

  predicate Opens(p: Policy, key: string, depth: nat, nodes: nat) {
    depth <= p.maxDepth && nodes < p.maxNodes && (p.kind(key).Path? || p.kind(key).Normal?)
  }

  lemma SeqImage(p: Policy, items: seq<Json>, key: string, depth: nat, nodes: nat, cs: seq<nat>, rs: seq<Json>, after: nat)
    requires Opens(p, key, depth, nodes) && ItemsImage(p, items, p.maxItems, depth, cs, rs)
    requires cs[0] == nodes + 1 && cs[|cs| - 1] == after
    ensures Image(p, Seq(items), key, depth, nodes, Seq(rs), after)
  {
    assert Counts(cs, Shown(|items|, p.maxItems), nodes, after);
  }

  lemma DictImage(p: Policy, ms: seq<Member>, key: string, depth: nat, nodes: nat, cs: seq<nat>, es: seq<Member>,
                  r: seq<Member>, after: nat)
    requires Opens(p, key, depth, nodes) && MembersImage(p, ms, p.maxItems, depth, cs, es) && LastWins(es, r)
    requires cs[0] == nodes + 1 && cs[|cs| - 1] == after
    ensures Image(p, Dict(ms), key, depth, nodes, Dict(r), after)
  {
    assert Counts(cs, Shown(|ms|, p.maxItems), nodes, after);
  }

  lemma OpenVisit(p: Policy, v: Json, key: string, depth: nat, nodes: nat)
    requires Opens(p, key, depth, nodes)
    ensures var out := Visit(p, v, key, depth, nodes);
            && (v.Dict? ==> var ms := VisitMembers(p, v.members, 0, depth, nodes + 1, []);
                            out == Out(Dict(ms.value), ms.nodes))
            && (v.Seq? ==> var items := VisitItems(p, v.items, 0, depth, nodes + 1, []);
                           out == Out(Seq(items.value), items.nodes))
  {
  }

  lemma ShutVisit(p: Policy, v: Json, key: string, depth: nat, nodes: nat)
    requires !Opens(p, key, depth, nodes) || !(v.Seq? || v.Dict?)
    ensures var out := Visit(p, v, key, depth, nodes); Image(p, v, key, depth, nodes, out.value, out.nodes)
  {
    if depth <= p.maxDepth && nodes < p.maxNodes { LeafVisit(p, v, key); }
  }

  lemma {:induction false} VisitImage(p: Policy, v: Json, key: string, depth: nat, nodes: nat)
    ensures var out := Visit(p, v, key, depth, nodes); Image(p, v, key, depth, nodes, out.value, out.nodes)
    decreases v, 1
  {
    if !Opens(p, key, depth, nodes) || !(v.Seq? || v.Dict?) {
      ShutVisit(p, v, key, depth, nodes);
    } else {
      if v.Seq? {
        var cs, rs := ItemsVisited(p, v.items, 0, depth, nodes + 1, []);
        SeqVisited(p, v.items, key, depth, nodes, cs, rs);
      } else {
        var cs, es := MembersVisited(p, v.members, 0, depth, nodes + 1, []);
        DictVisited(p, v.members, key, depth, nodes, cs, es);
      }
    }
  }

  lemma SeqVisited(p: Policy, items: seq<Json>, key: string, depth: nat, nodes: nat, cs: seq<nat>, rs: seq<Json>)
    requires Opens(p, key, depth, nodes) && ItemsImage(p, items, p.maxItems, depth, cs, rs)
    requires var out := VisitItems(p, items, 0, depth, nodes + 1, []);
             cs[0] == nodes + 1 && cs[|cs| - 1] == out.nodes && out.value == [] + rs
    ensures var out := Visit(p, Seq(items), key, depth, nodes); Image(p, Seq(items), key, depth, nodes, out.value, out.nodes)
  {
    OpenVisit(p, Seq(items), key, depth, nodes);
    assert [] + rs == rs;
    SeqImage(p, items, key, depth, nodes, cs, rs, Visit(p, Seq(items), key, depth, nodes).nodes);
  }

  lemma DictVisited(p: Policy, ms: seq<Member>, key: string, depth: nat, nodes: nat, cs: seq<nat>, es: seq<Member>)
    requires Opens(p, key, depth, nodes) && MembersImage(p, ms, p.maxItems, depth, cs, es)
    requires var out := VisitMembers(p, ms, 0, depth, nodes + 1, []);
             cs[0] == nodes + 1 && cs[|cs| - 1] == out.nodes && out.value == PutAll([], es)
    ensures var out := Visit(p, Dict(ms), key, depth, nodes); Image(p, Dict(ms), key, depth, nodes, out.value, out.nodes)
  {
    OpenVisit(p, Dict(ms), key, depth, nodes);
    PutAllIs([], [], es);
    assert [] + es == es;
    DictImage(p, ms, key, depth, nodes, cs, es, PutAll([], es), Visit(p, Dict(ms), key, depth, nodes).nodes);
  }

  lemma {:induction false} ItemsVisited(p: Policy, items: seq<Json>, index: nat, depth: nat, nodes: nat, done: seq<Json>)
    returns (cs: seq<nat>, rs: seq<Json>)
    requires index <= p.maxItems
    ensures var out := VisitItems(p, items, index, depth, nodes, done);
            && ItemsImage(p, items, p.maxItems - index, depth, cs, rs)
            && cs[0] == nodes && cs[|cs| - 1] == out.nodes && out.value == done + rs
    decreases items, 0
  {
    if items == [] {
      cs, rs := [nodes], [];
    } else if index >= p.maxItems {
      cs, rs := [nodes], [Str(BOUND)];
    } else {
      var out := Visit(p, items[0], "", depth + 1, nodes);
      VisitImage(p, items[0], "", depth + 1, nodes);
      cs, rs := ItemsVisited(p, items[1..], index + 1, depth, out.nodes, done + [out.value]);
      ItemsCons(p, items, p.maxItems - index, depth, nodes, cs, out.value, rs);
      Regroup(done, out.value, rs);
      cs, rs := [nodes] + cs, [out.value] + rs;
    }
  }

  lemma {:induction false} MembersVisited(p: Policy, ms: seq<Member>, index: nat, depth: nat, nodes: nat, done: seq<Member>)
    returns (cs: seq<nat>, es: seq<Member>)
    requires index <= p.maxItems
    ensures var out := VisitMembers(p, ms, index, depth, nodes, done);
            && MembersImage(p, ms, p.maxItems - index, depth, cs, es)
            && cs[0] == nodes && cs[|cs| - 1] == out.nodes && out.value == PutAll(done, es)
    decreases ms, 0
  {
    if ms == [] {
      cs, es := [nodes], [];
    } else if index >= p.maxItems {
      cs, es := [nodes], [Member(ITEMS_KEY, Str(BOUND))];
      assert PutAll(done, es) == PutAll(Put(done, ITEMS_KEY, Str(BOUND)), es[1..]);
    } else {
      var key := SafeKey(ms[0].key);
      var out := Visit(p, ms[0].value, key, depth + 1, nodes);
      VisitImage(p, ms[0].value, key, depth + 1, nodes);
      var m := Member(key, out.value);
      cs, es := MembersVisited(p, ms[1..], index + 1, depth, out.nodes, Put(done, key, out.value));
      MembersCons(p, ms, p.maxItems - index, depth, nodes, cs, m, es);
      assert ([m] + es)[1..] == es;
      cs, es := [nodes] + cs, [m] + es;
    }
  }

  /** The whole redaction, for every tree and policy, limits and all. */
  lemma RedactionImage(p: Policy, v: Json)
    ensures exists after :: Image(p, v, "", 0, 0, Redact(p, v), after)
  {
    VisitImage(p, v, "", 0, 0);
    assert Image(p, v, "", 0, 0, Redact(p, v), Visit(p, v, "", 0, 0).nodes);
  }

  // ---- Trees that are left as they are ----

  /** Nothing below is rewritten: booleans and nulls anywhere, numbers unless a secret, id or page key
      is above them, texts that their rewriting leaves, lists and dictionaries of such under keys that
      are not sensitive, with keys that are short and distinct; and the sentinel of its kind. */
  predicate Clean(p: Policy, v: Json, key: string)
    decreases v
  {
    || v.Null? || v.Bool?
    || (match p.kind(key)
        case Secret => v == Str("<redacted secret>")
        case Id => v == Str("<redacted id>")
        case Page => v == Str("<redacted page body>")
        case Error => v.Int? || v.Float? || v == Str("<redacted error>")
        case kind =>
          match v
          case Int(_) => true
          case Float(_) => true
          case Str(text) => text == (if kind.Path? then p.path(text) else p.plain(text))
          case Seq(items) => forall i :: 0 <= i < |items| ==> Clean(p, items[i], "")
          case Dict(ms) => CleanEntries(p, ms)
          case _ => false)
  }

  predicate CleanEntries(p: Policy, ms: seq<Member>)
    decreases ms
  {
    && (forall i, j :: 0 <= i < j < |ms| ==> ms[i].key != ms[j].key)
    && (forall i :: 0 <= i < |ms| ==> |ms[i].key| <= 256 && Clean(p, ms[i].value, ms[i].key))
  }

  lemma {:induction false} CleanItems(p: Policy, items: seq<Json>)
    ensures SimpleItems(p, items) == items <==> forall i :: 0 <= i < |items| ==> Clean(p, items[i], "")
    decreases items, 0
  {
    if items != [] {
      CleanIff(p, items[0], "");
      CleanItems(p, items[1..]);
      var r := SimpleItems(p, items);
      assert r[0] == Simple(p, items[0], "") && r[1..] == SimpleItems(p, items[1..]);
      assert forall i :: 0 <= i < |items| - 1 ==> items[1..][i] == items[i + 1];
    }
  }

  lemma UniqueIff(ms: seq<Member>)
    ensures Unique(ms) <==>
            && (forall i, j :: 0 <= i < j < |ms| ==> ms[i].key != ms[j].key)
            && (forall i :: 0 <= i < |ms| ==> |ms[i].key| <= 256)
  {
    if Unique(ms) {
      assert forall i :: 0 <= i < |ms| ==> ms[i] in ms;
    }
  }

  lemma CleanMembers(p: Policy, ms: seq<Member>)
    requires forall m :: m in ms ==> (Fixed(p, m.value, m.key) <==> Clean(p, m.value, m.key))
    ensures SimpleMembers(p, ms, []) == ms <==> CleanEntries(p, ms)
  {
    MembersTwice(p, ms, []);
    UniqueIff(ms);
    if Unique(ms) {
      AllFixed(p, ms);
      assert forall i :: 0 <= i < |ms| ==> ms[i] in ms;
    }
  }

  lemma CleanLeaf(p: Policy, v: Json, key: string)
    requires !v.Seq? && !v.Dict?
    ensures Fixed(p, v, key) <==> Clean(p, v, key)
  {
  }

  lemma OpenEntries(p: Policy, ms: seq<Member>, key: string)
    requires p.kind(key).Path? || p.kind(key).Normal?
    ensures Simple(p, Dict(ms), key) == Dict(SimpleMembers(p, ms, []))
  {
  }

  lemma OpenClean(p: Policy, ms: seq<Member>, key: string)
    requires p.kind(key).Path? || p.kind(key).Normal?
    ensures Clean(p, Dict(ms), key) <==> CleanEntries(p, ms)
  {
  }

  lemma ShutDict(p: Policy, ms: seq<Member>, key: string)
    requires !(p.kind(key).Path? || p.kind(key).Normal?)
    ensures Simple(p, Dict(ms), key).Str? && !Clean(p, Dict(ms), key)
  {
  }

  lemma CleanDict(p: Policy, ms: seq<Member>, key: string)
    requires SimpleMembers(p, ms, []) == ms <==> CleanEntries(p, ms)
    ensures Fixed(p, Dict(ms), key) <==> Clean(p, Dict(ms), key)
  {
    if p.kind(key).Path? || p.kind(key).Normal? {
      OpenEntries(p, ms, key);
      OpenClean(p, ms, key);
    } else {
      ShutDict(p, ms, key);
    }
  }

  lemma CleanSeq(p: Policy, items: seq<Json>, key: string)
    requires SimpleItems(p, items) == items <==> forall i :: 0 <= i < |items| ==> Clean(p, items[i], "")
    ensures Fixed(p, Seq(items), key) <==> Clean(p, Seq(items), key)
  {
    if p.kind(key).Path? || p.kind(key).Normal? {
      assert Simple(p, Seq(items), key) == Seq(SimpleItems(p, items));
    }
  }

  /** Redacting without limits leaves exactly the clean trees as they are. */
  lemma {:induction false} CleanIff(p: Policy, v: Json, key: string)
    ensures Fixed(p, v, key) <==> Clean(p, v, key)
    decreases v, 1
  {
    match v {
      case Dict(ms) =>
        forall m | m in ms ensures Fixed(p, m.value, m.key) <==> Clean(p, m.value, m.key) {
          CleanIff(p, m.value, m.key);
        }
        CleanMembers(p, ms);
        CleanDict(p, ms, key);
      case Seq(items) =>
        CleanItems(p, items);
        CleanSeq(p, items, key);
      case _ => CleanLeaf(p, v, key);
    }
  }

  /** A tree within the limits survives exactly when it is clean. */
  lemma UntouchedIff(p: Policy, v: Json)
    requires Height(v) <= p.maxDepth && Nodes(v) <= p.maxNodes && Within(v, p.maxItems)
    ensures Redact(p, v) == v <==> Clean(p, v, "")
  {
    LimitsNeverBite(p, v);
    CleanIff(p, v, "");
  }
}
