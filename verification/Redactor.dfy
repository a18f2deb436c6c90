/** Redacting a JSON-like tree before it is written to disk: sensitive entries become fixed
    sentinels, and depth, breadth and the number of visited nodes are bounded. */
module Redactor {

  datatype Json =
    | Null
    | Bool(b: bool)
    | Int(i: int)
    | Float(r: real)
    | NonFinite
    | Str(text: string)
    | Bytes
    | Seq(items: seq<Json>)
    | Dict(members: seq<Member>)
    | Other

  /** A dictionary entry, in insertion order, with its key as text. */
  datatype Member = Member(key: string, value: Json)

  datatype Kind = Secret | Id | Page | Error | Path | Normal

  /** The classifier of keys, the two rewritings of text, and the three limits. */
  datatype Policy = Policy(
    kind: string -> Kind,
    path: string -> string,
    plain: string -> string,
    maxDepth: nat,
    maxItems: nat,
    maxNodes: nat)

  const BOUND := "<redacted:bound>"
  const ITEMS_KEY := "<redacted:items>"
  const SECRET := "<redacted secret>"
  const ID := "<redacted id>"
  const PAGE := "<redacted page body>"
  const ERROR := "<redacted error>"
  const BYTES := "<redacted bytes>"
  const NON_FINITE := "<non-finite>"
  const UNSUPPORTED := "<redacted:unsupported>"
  const KEY_LIMIT := 256

  /** A value and the number of nodes visited so far. */
  datatype Out<T> = Out(value: T, nodes: nat)

  predicate Harmless(v: Json) { v.Bool? || v.Null? }

  /** The sentinel a key of this kind puts in place of the value, if any. */
  function Shield(kind: Kind, v: Json): (s: string)
    ensures s != "" ==> s in [SECRET, ID, PAGE, ERROR]
  {
    match kind
    case Secret => if Harmless(v) then "" else SECRET
    case Id => if Harmless(v) then "" else ID
    case Page => if Harmless(v) then "" else PAGE
    case Error => if Harmless(v) || v.Int? || v.Float? || v.NonFinite? then "" else ERROR
    case _ => ""
  }

  function Leaf(p: Policy, v: Json, key: string): Json
    requires !v.Seq? && !v.Dict?
  {
    match v
    case Str(text) => Str(if p.kind(key) == Path then p.path(text) else p.plain(text))
    case Bytes => Str(BYTES)
    case NonFinite => Str(NON_FINITE)
    case Other => Str(UNSUPPORTED)
    case _ => v
  }

  function SafeKey(key: string): string { if |key| > KEY_LIMIT then key[..KEY_LIMIT] else key }

  /** Assignment to a dictionary: an old key keeps its place. */
  function Put(ms: seq<Member>, key: string, value: Json): seq<Member> {
    if ms == [] then [Member(key, value)]
    else if ms[0].key == key then [Member(key, value)] + ms[1..]
    else [ms[0]] + Put(ms[1..], key, value)
  }

  /** The inner `visit`, threading the node counter. */
  function Visit(p: Policy, v: Json, key: string, depth: nat, nodes: nat): Out<Json>
    decreases v
  {
    var n := nodes + 1;
    if depth > p.maxDepth || n > p.maxNodes then Out(Str(BOUND), n)
    else if Shield(p.kind(key), v) != "" then Out(Str(Shield(p.kind(key), v)), n)
    else
      match v
      case Dict(members) =>
        var ms := VisitMembers(p, members, 0, depth, n, []);
        Out(Dict(ms.value), ms.nodes)
      case Seq(items) =>
        var out := VisitItems(p, items, 0, depth, n, []);
        Out(Seq(out.value), out.nodes)
      case _ => Out(Leaf(p, v, key), n)
  }

  function VisitMembers(p: Policy, ms: seq<Member>, index: nat, depth: nat, nodes: nat, done: seq<Member>): Out<seq<Member>>
    decreases ms
  {
    if ms == [] then Out(done, nodes)
    else if index >= p.maxItems then Out(Put(done, ITEMS_KEY, Str(BOUND)), nodes)
    else
      var out := Visit(p, ms[0].value, SafeKey(ms[0].key), depth + 1, nodes);
      VisitMembers(p, ms[1..], index + 1, depth, out.nodes, Put(done, SafeKey(ms[0].key), out.value))
  }

  function VisitItems(p: Policy, items: seq<Json>, index: nat, depth: nat, nodes: nat, done: seq<Json>): Out<seq<Json>>
    decreases items
  {
    if items == [] then Out(done, nodes)
    else if index >= p.maxItems then Out(done + [Str(BOUND)], nodes)
    else
      var out := Visit(p, items[0], "", depth + 1, nodes);
      VisitItems(p, items[1..], index + 1, depth, out.nodes, done + [out.value])
  }

  /** `redact_for_persistence`. */
  function Redact(p: Policy, v: Json): Json { Visit(p, v, "", 0, 0).value }

  // ---- Depth, breadth, size ----

  function Max(a: nat, b: nat): nat { if a < b then b else a }

  /** The longest way down, in steps. */
  function Height(v: Json): nat
    decreases v
  {
    match v
    case Dict(members) => MembersHeight(members)
    case Seq(items) => ItemsHeight(items)
    case _ => 0
  }

  function MembersHeight(ms: seq<Member>): nat
    decreases ms
  {
    if ms == [] then 0 else Max(1 + Height(ms[0].value), MembersHeight(ms[1..]))
  }

  function ItemsHeight(items: seq<Json>): nat
    decreases items
  {
    if items == [] then 0 else Max(1 + Height(items[0]), ItemsHeight(items[1..]))
  }

  /** No container below has more than `w` entries. */
  predicate Within(v: Json, w: nat)
    decreases v
  {
    match v
    case Dict(members) => |members| <= w && MembersWithin(members, w)
    case Seq(items) => |items| <= w && ItemsWithin(items, w)
    case _ => true
  }

  predicate MembersWithin(ms: seq<Member>, w: nat)
    decreases ms
  {
    ms == [] || (Within(ms[0].value, w) && MembersWithin(ms[1..], w))
  }

  predicate ItemsWithin(items: seq<Json>, w: nat)
    decreases items
  {
    items == [] || (Within(items[0], w) && ItemsWithin(items[1..], w))
  }

  /** How many nodes are not the bound sentinel. */
  function Solid(v: Json): nat
    decreases v
  {
    match v
    case Dict(members) => 1 + SolidMembers(members)
    case Seq(items) => 1 + SolidItems(items)
    case _ => if v == Str(BOUND) then 0 else 1
  }

  function SolidMembers(ms: seq<Member>): nat
    decreases ms
  {
    if ms == [] then 0 else Solid(ms[0].value) + SolidMembers(ms[1..])
  }

  function SolidItems(items: seq<Json>): nat
    decreases items
  {
    if items == [] then 0 else Solid(items[0]) + SolidItems(items[1..])
  }

  /** Every entry under a secret, id or page key is a boolean, null or the sentinel of its kind; one
      under an error key may also be a number. */
  predicate Safe(p: Policy, v: Json)
    decreases v
  {
    match v
    case Dict(members) => SafeMembers(p, members)
    case Seq(items) => SafeItems(p, items)
    case _ => true
  }

  predicate SafeMembers(p: Policy, ms: seq<Member>)
    decreases ms
  {
    ms == [] || (SafeEntry(p, ms[0].key, ms[0].value) && Safe(p, ms[0].value) && SafeMembers(p, ms[1..]))
  }

  predicate SafeItems(p: Policy, items: seq<Json>)
    decreases items
  {
    items == [] || (Safe(p, items[0]) && SafeItems(p, items[1..]))
  }

  predicate SafeEntry(p: Policy, key: string, v: Json) {
    v == Str(BOUND) ||
    (match p.kind(key)
     case Secret => Harmless(v) || v == Str(SECRET)
     case Id => Harmless(v) || v == Str(ID)
     case Page => Harmless(v) || v == Str(PAGE)
     case Error => Harmless(v) || v.Int? || v.Float? || v == Str(NON_FINITE) || v == Str(ERROR)
     case _ => true)
  }

  // ---- One entry at a time ----

  lemma {:induction false} PutSizes(ms: seq<Member>, key: string, v: Json, w: nat)
    ensures var r := Put(ms, key, v);
            && |r| <= |ms| + 1
            && SolidMembers(r) <= SolidMembers(ms) + Solid(v)
            && MembersHeight(r) <= Max(MembersHeight(ms), 1 + Height(v))
            && (MembersWithin(ms, w) && Within(v, w) ==> MembersWithin(r, w))
    decreases |ms|
  {
    var r := Put(ms, key, v);
    if ms == [] {
      assert r[1..] == [];
    } else if ms[0].key == key {
      assert r[1..] == ms[1..];
    } else {
      PutSizes(ms[1..], key, v, w);
      assert r[1..] == Put(ms[1..], key, v);
    }
  }

  lemma {:induction false} PutSafe(p: Policy, ms: seq<Member>, key: string, v: Json)
    requires SafeMembers(p, ms) && Safe(p, v) && SafeEntry(p, key, v)
    ensures SafeMembers(p, Put(ms, key, v))
    decreases |ms|
  {
    var r := Put(ms, key, v);
    if ms == [] {
      assert r[1..] == [];
    } else if ms[0].key == key {
      assert r[1..] == ms[1..];
    } else {
      PutSafe(p, ms[1..], key, v);
      assert r[1..] == Put(ms[1..], key, v);
    }
  }

  lemma {:induction false} AppendLaws(p: Policy, items: seq<Json>, v: Json, w: nat)
    ensures var r := items + [v];
            && SolidItems(r) == SolidItems(items) + Solid(v)
            && ItemsHeight(r) == Max(ItemsHeight(items), 1 + Height(v))
            && (ItemsWithin(items, w) && Within(v, w) ==> ItemsWithin(r, w))
            && (SafeItems(p, items) && Safe(p, v) ==> SafeItems(p, r))
    decreases |items|
  {
    if items == [] {
      assert (items + [v])[1..] == [];
    } else {
      AppendLaws(p, items[1..], v, w);
      assert (items + [v])[1..] == items[1..] + [v];
    }
  }

  // ---- Bounded redaction ----

  function Cap(p: Policy, nodes: nat): nat { if nodes > p.maxNodes then p.maxNodes else nodes }

  /** What a value put out at `depth`, taking the counter from `before` to `after`, satisfies. */
  predicate Bounded(p: Policy, v: Json, key: string, depth: nat, before: nat, after: nat) {
    && before <= after && Solid(v) <= Cap(p, after) - Cap(p, before)
    && Height(v) <= (if depth > p.maxDepth then 0 else p.maxDepth + 1 - depth)
    && Within(v, p.maxItems + 1)
    && Safe(p, v) && SafeEntry(p, key, v)
  }

  predicate BoundedMembers(p: Policy, ms: seq<Member>, room: nat, depth: nat, before: nat, after: nat) {
    && before <= after && SolidMembers(ms) <= Cap(p, after) - Cap(p, before)
    && depth <= p.maxDepth && MembersHeight(ms) <= p.maxDepth + 1 - depth
    && |ms| <= room && MembersWithin(ms, p.maxItems + 1)
    && SafeMembers(p, ms)
  }

  predicate BoundedItems(p: Policy, items: seq<Json>, room: nat, depth: nat, before: nat, after: nat) {
    && before <= after && SolidItems(items) <= Cap(p, after) - Cap(p, before)
    && depth <= p.maxDepth && ItemsHeight(items) <= p.maxDepth + 1 - depth
    && |items| <= room && ItemsWithin(items, p.maxItems + 1)
    && SafeItems(p, items)
  }

  lemma {:induction false} VisitIsBounded(p: Policy, v: Json, key: string, depth: nat, nodes: nat)
    ensures var out := Visit(p, v, key, depth, nodes); Bounded(p, out.value, key, depth, nodes, out.nodes)
    decreases v
  {
    var n := nodes + 1;
    if depth <= p.maxDepth && n <= p.maxNodes && Shield(p.kind(key), v) == "" {
      match v {
        case Dict(members) => MembersAreBounded(p, members, 0, depth, n, n, []);
        case Seq(items) => ItemsAreBounded(p, items, 0, depth, n, n, []);
        case _ =>
      }
    }
  }

  lemma {:induction false} MembersAreBounded(p: Policy, ms: seq<Member>, index: nat, depth: nat, start: nat, nodes: nat,
                                             done: seq<Member>)
    requires BoundedMembers(p, done, index, depth, start, nodes) && index <= p.maxItems
    ensures var out := VisitMembers(p, ms, index, depth, nodes, done);
            BoundedMembers(p, out.value, p.maxItems + 1, depth, start, out.nodes)
    decreases ms
  {
    if ms != [] {
      if index >= p.maxItems {
        PutSizes(done, ITEMS_KEY, Str(BOUND), p.maxItems + 1);
        PutSafe(p, done, ITEMS_KEY, Str(BOUND));
      } else {
        var key := SafeKey(ms[0].key);
        VisitIsBounded(p, ms[0].value, key, depth + 1, nodes);
        var out := Visit(p, ms[0].value, key, depth + 1, nodes);
        OneMoreMember(p, done, key, out.value, index, depth, start, nodes, out.nodes);
        MembersAreBounded(p, ms[1..], index + 1, depth, start, out.nodes, Put(done, key, out.value));
      }
    }
  }

  lemma OneMoreMember(p: Policy, done: seq<Member>, key: string, v: Json, room: nat, depth: nat, start: nat, nodes: nat,
                      after: nat)
    requires BoundedMembers(p, done, room, depth, start, nodes) && Bounded(p, v, key, depth + 1, nodes, after)
    ensures BoundedMembers(p, Put(done, key, v), room + 1, depth, start, after)
  {
    PutSizes(done, key, v, p.maxItems + 1);
    PutSafe(p, done, key, v);
  }

  lemma {:induction false} ItemsAreBounded(p: Policy, items: seq<Json>, index: nat, depth: nat, start: nat, nodes: nat,
                                           done: seq<Json>)
    requires BoundedItems(p, done, index, depth, start, nodes) && index <= p.maxItems
    ensures var out := VisitItems(p, items, index, depth, nodes, done);
            BoundedItems(p, out.value, p.maxItems + 1, depth, start, out.nodes)
    decreases items
  {
    if items != [] {
      if index >= p.maxItems {
        AppendLaws(p, done, Str(BOUND), p.maxItems + 1);
      } else {
        VisitIsBounded(p, items[0], "", depth + 1, nodes);
        var out := Visit(p, items[0], "", depth + 1, nodes);
        AppendLaws(p, done, out.value, p.maxItems + 1);
        ItemsAreBounded(p, items[1..], index + 1, depth, start, out.nodes, done + [out.value]);
      }
    }
  }

  /** For every tree and policy: the output is at most one step deeper than the limit, no container
      has more than one entry over the limit, at most `maxNodes` nodes are not the bound sentinel,
      and sensitive entries hold nothing but booleans, nulls and the sentinel of their kind. */
  lemma RedactionIsBounded(p: Policy, v: Json)
    ensures var r := Redact(p, v);
            Height(r) <= p.maxDepth + 1 && Within(r, p.maxItems + 1) && Solid(r) <= p.maxNodes && Safe(p, r)
  {
    VisitIsBounded(p, v, "", 0, 0);
  }

  // ---- Without the limits ----

  /** The redaction with no counter and no limits. */
  function Simple(p: Policy, v: Json, key: string): Json
    decreases v
  {
    if Shield(p.kind(key), v) != "" then Str(Shield(p.kind(key), v))
    else
      match v
      case Dict(members) => Dict(SimpleMembers(p, members, []))
      case Seq(items) => Seq(SimpleItems(p, items))
      case _ => Leaf(p, v, key)
  }

  function SimpleMembers(p: Policy, ms: seq<Member>, done: seq<Member>): seq<Member>
    decreases ms
  {
    if ms == [] then done
    else
      var key := SafeKey(ms[0].key);
      SimpleMembers(p, ms[1..], Put(done, key, Simple(p, ms[0].value, key)))
  }

  function SimpleItems(p: Policy, items: seq<Json>): seq<Json>
    decreases items
  {
    if items == [] then [] else [Simple(p, items[0], "")] + SimpleItems(p, items[1..])
  }

  function Nodes(v: Json): nat
    decreases v
  {
    match v
    case Dict(members) => 1 + MembersNodes(members)
    case Seq(items) => 1 + ItemsNodes(items)
    case _ => 1
  }

  function MembersNodes(ms: seq<Member>): nat
    decreases ms
  {
    if ms == [] then 0 else Nodes(ms[0].value) + MembersNodes(ms[1..])
  }

  function ItemsNodes(items: seq<Json>): nat
    decreases items
  {
    if items == [] then 0 else Nodes(items[0]) + ItemsNodes(items[1..])
  }

  lemma {:induction false} VisitIsSimple(p: Policy, v: Json, key: string, depth: nat, nodes: nat)
    requires depth + Height(v) <= p.maxDepth && nodes + Nodes(v) <= p.maxNodes && Within(v, p.maxItems)
    ensures var out := Visit(p, v, key, depth, nodes);
            out.value == Simple(p, v, key) && out.nodes <= nodes + Nodes(v)
    decreases v
  {
    match v {
      case Dict(members) => MembersAreSimple(p, members, 0, depth, nodes + 1, []);
      case Seq(items) =>
        ItemsAreSimple(p, items, 0, depth, nodes + 1, []);
        assert [] + SimpleItems(p, items) == SimpleItems(p, items);
      case _ =>
    }
  }

  lemma {:induction false} MembersAreSimple(p: Policy, ms: seq<Member>, index: nat, depth: nat, nodes: nat, done: seq<Member>)
    requires depth + MembersHeight(ms) <= p.maxDepth && nodes + MembersNodes(ms) <= p.maxNodes
    requires index + |ms| <= p.maxItems && MembersWithin(ms, p.maxItems)
    ensures var out := VisitMembers(p, ms, index, depth, nodes, done);
            out.value == SimpleMembers(p, ms, done) && out.nodes <= nodes + MembersNodes(ms)
    decreases ms
  {
    if ms != [] {
      var key := SafeKey(ms[0].key);
      VisitIsSimple(p, ms[0].value, key, depth + 1, nodes);
      var out := Visit(p, ms[0].value, key, depth + 1, nodes);
      MembersAreSimple(p, ms[1..], index + 1, depth, out.nodes, Put(done, key, out.value));
    }
  }

  lemma {:induction false} ItemsAreSimple(p: Policy, items: seq<Json>, index: nat, depth: nat, nodes: nat, done: seq<Json>)
    requires depth + ItemsHeight(items) <= p.maxDepth && nodes + ItemsNodes(items) <= p.maxNodes
    requires index + |items| <= p.maxItems && ItemsWithin(items, p.maxItems)
    ensures var out := VisitItems(p, items, index, depth, nodes, done);
            out.value == done + SimpleItems(p, items) && out.nodes <= nodes + ItemsNodes(items)
    decreases items
  {
    if items == [] {
      assert done + [] == done;
    } else {
      VisitIsSimple(p, items[0], "", depth + 1, nodes);
      var out := Visit(p, items[0], "", depth + 1, nodes);
      ItemsAreSimple(p, items[1..], index + 1, depth, out.nodes, done + [out.value]);
      Regroup(done, out.value, SimpleItems(p, items[1..]));
    }
  }

  lemma Regroup(a: seq<Json>, v: Json, b: seq<Json>)
    ensures (a + [v]) + b == a + ([v] + b)
  {
  }

  /** The limits never show on a tree that respects them. */
  lemma LimitsNeverBite(p: Policy, v: Json)
    requires Height(v) <= p.maxDepth && Nodes(v) <= p.maxNodes && Within(v, p.maxItems)
    ensures Redact(p, v) == Simple(p, v, "")
  {
    VisitIsSimple(p, v, "", 0, 0);
  }

  // ---- The visitor itself ----

  /** One call of `redact_for_persistence`: its limits and the counter every visit shares. */
  class Redaction {
    const p: Policy
    var nodes: nat

    constructor (p: Policy)
      ensures this.p == p && nodes == 0
    {
      this.p := p;
      nodes := 0;
    }

    method VisitValue(v: Json, key: string, depth: nat) returns (r: Json)
      modifies this
      ensures Out(r, nodes) == Visit(p, v, key, depth, old(nodes))
      decreases v
    {
      nodes := nodes + 1;
      if depth > p.maxDepth || nodes > p.maxNodes {
        return Str(BOUND);
      }
      var kind := p.kind(key);
      if kind == Secret && !Harmless(v) {
        return Str(SECRET);
      }
      if kind == Id && !Harmless(v) {
        return Str(ID);
      }
      if kind == Page && !Harmless(v) {
        return Str(PAGE);
      }
      if kind == Error && !Harmless(v) && !v.Int? && !v.Float? && !v.NonFinite? {
        return Str(ERROR);
      }
      match v {
        case Dict(members) =>
          var result := VisitDict(members, depth);
          r := Dict(result);
        case Seq(items) =>
          var result := VisitList(items, depth);
          r := Seq(result);
        case _ =>
          r := Leaf(p, v, key);
      }
    }

    method VisitDict(members: seq<Member>, depth: nat) returns (result: seq<Member>)
      modifies this
      ensures Out(result, nodes) == VisitMembers(p, members, 0, depth, old(nodes), [])
      decreases members
    {
      result := [];
      var index := 0;
      assert members[0..] == members;
      while index < |members|
        invariant index <= |members|
        invariant VisitMembers(p, members[index..], index, depth, nodes, result)
                  == VisitMembers(p, members, 0, depth, old(nodes), [])
      {
        if index >= p.maxItems {
          result := Put(result, ITEMS_KEY, Str(BOUND));
          return;
        }
        assert members[index..][0] == members[index] && members[index..][1..] == members[index + 1..];
        var safeKey := SafeKey(members[index].key);
        var value := VisitValue(members[index].value, safeKey, depth + 1);
        result, index := Put(result, safeKey, value), index + 1;
      }
    }

    method VisitList(items: seq<Json>, depth: nat) returns (result: seq<Json>)
      modifies this
      ensures Out(result, nodes) == VisitItems(p, items, 0, depth, old(nodes), [])
      decreases items
    {
      result := [];
      var index := 0;
      assert items[0..] == items;
      while index < |items| && index < p.maxItems
        invariant index <= |items| && index <= p.maxItems
        invariant VisitItems(p, items[index..], index, depth, nodes, result)
                  == VisitItems(p, items, 0, depth, old(nodes), [])
      {
        assert items[index..][0] == items[index] && items[index..][1..] == items[index + 1..];
        var value := VisitValue(items[index], "", depth + 1);
        result, index := result + [value], index + 1;
      }
      if |items| > p.maxItems {
        result := result + [Str(BOUND)];
      }
    }
  }

  method RedactForPersistence(p: Policy, v: Json) returns (r: Json)
    ensures r == Redact(p, v)
  {
    var state := new Redaction(p);
    r := state.VisitValue(v, "", 0);
  }
}
