/** What the redaction does not look at: values under sensitive keys leave no trace, as the keys are
    classified, which is after they are cut. */
module RedactorBlind {
  import opened Redactor
  import opened RedactorTwice

  predicate Hidden(p: Policy, v: Json, key: string) { Shield(p.kind(key), v) != "" }

  /** The trees differ only in values that are hidden under their keys. */
  predicate Alike(p: Policy, v: Json, w: Json, key: string)
    decreases v
  {
    || (Hidden(p, v, key) && Hidden(p, w, key))
    || (match v
        case Dict(members) => w.Dict? && AlikeMembers(p, members, w.members)
        case Seq(items) => w.Seq? && AlikeItems(p, items, w.items)
        case _ => v == w)
  }

  predicate AlikeMembers(p: Policy, ms: seq<Member>, ns: seq<Member>)
    decreases ms
  {
    |ms| == |ns| &&
    (ms == [] ||
     (&& ms[0].key == ns[0].key && Alike(p, ms[0].value, ns[0].value, SafeKey(ms[0].key))
      && AlikeMembers(p, ms[1..], ns[1..])))
  }

  predicate AlikeItems(p: Policy, items: seq<Json>, others: seq<Json>)
    decreases items
  {
    |items| == |others| &&
    (items == [] || (Alike(p, items[0], others[0], "") && AlikeItems(p, items[1..], others[1..])))
  }

  lemma ShieldIsOne(kind: Kind, v: Json, w: Json)
    requires Shield(kind, v) != "" && Shield(kind, w) != ""
    ensures Shield(kind, v) == Shield(kind, w)
  {
  }

  lemma {:induction false} VisitIsBlind(p: Policy, v: Json, w: Json, key: string, depth: nat, nodes: nat)
    requires Alike(p, v, w, key)
    ensures Visit(p, v, key, depth, nodes) == Visit(p, w, key, depth, nodes)
    decreases v
  {
    if Hidden(p, v, key) && Hidden(p, w, key) {
      ShieldIsOne(p.kind(key), v, w);
    } else {
      match v {
        case Dict(members) => MembersAreBlind(p, members, w.members, 0, depth, nodes + 1, []);
        case Seq(items) => ItemsAreBlind(p, items, w.items, 0, depth, nodes + 1, []);
        case _ =>
      }
    }
  }

  lemma {:induction false} MembersAreBlind(p: Policy, ms: seq<Member>, ns: seq<Member>, index: nat, depth: nat, nodes: nat,
                                           done: seq<Member>)
    requires AlikeMembers(p, ms, ns)
    ensures VisitMembers(p, ms, index, depth, nodes, done) == VisitMembers(p, ns, index, depth, nodes, done)
    decreases ms
  {
    if ms != [] && index < p.maxItems {
      var key := SafeKey(ms[0].key);
      VisitIsBlind(p, ms[0].value, ns[0].value, key, depth + 1, nodes);
      var out := Visit(p, ms[0].value, key, depth + 1, nodes);
      MembersAreBlind(p, ms[1..], ns[1..], index + 1, depth, out.nodes, Put(done, key, out.value));
    }
  }

  lemma {:induction false} ItemsAreBlind(p: Policy, items: seq<Json>, others: seq<Json>, index: nat, depth: nat, nodes: nat,
                                         done: seq<Json>)
    requires AlikeItems(p, items, others)
    ensures VisitItems(p, items, index, depth, nodes, done) == VisitItems(p, others, index, depth, nodes, done)
    decreases items
  {
    if items != [] && index < p.maxItems {
      VisitIsBlind(p, items[0], others[0], "", depth + 1, nodes);
      var out := Visit(p, items[0], "", depth + 1, nodes);
      ItemsAreBlind(p, items[1..], others[1..], index + 1, depth, out.nodes, done + [out.value]);
    }
  }

  /** Noninterference: trees that differ only in what stands under keys classified as sensitive, once
      cut, redact to the same. Nothing of such a value survives, not even its shape. */
  lemma RedactionIsBlind(p: Policy, v: Json, w: Json)
    requires Alike(p, v, w, "")
    ensures Redact(p, v) == Redact(p, w)
  {
    VisitIsBlind(p, v, w, "", 0, 0);
  }

  /** It is the cut key that counts. Two texts that the rewritings tell apart come out the same under a
      key exactly when the key, once cut, is sensitive. */
  lemma TextHiddenIff(p: Policy, key: string, a: string, b: string)
    requires p.maxDepth >= 1 && p.maxItems >= 1 && p.maxNodes >= 2 && p.kind("") == Normal
    requires p.plain(a) != p.plain(b) && p.path(a) != p.path(b)
    ensures Redact(p, Dict([Member(key, Str(a))])) == Redact(p, Dict([Member(key, Str(b))]))
            <==> p.kind(SafeKey(key)) in {Secret, Id, Page, Error}
  {
    OneText(p, key, a);
    OneText(p, key, b);
    var k := SafeKey(key);
    var x, y := Simple(p, Str(a), k), Simple(p, Str(b), k);
    assert [Member(k, x)] == [Member(k, y)] ==> [Member(k, x)][0].value == [Member(k, y)][0].value;
    if p.kind(k) == Path || p.kind(k) == Normal {
      OpenText(p, a, k);
      OpenText(p, b, k);
    } else {
      ShieldIsOne(p.kind(k), Str(a), Str(b));
    }
  }

  lemma OneText(p: Policy, key: string, text: string)
    requires p.maxDepth >= 1 && p.maxItems >= 1 && p.maxNodes >= 2 && p.kind("") == Normal
    ensures Redact(p, Dict([Member(key, Str(text))]))
            == Dict([Member(SafeKey(key), Simple(p, Str(text), SafeKey(key)))])
  {
    var m := Member(key, Str(text));
    OneTurn(p, m, [], 0, 1, [], SafeKey(key), Simple(p, Str(text), SafeKey(key)));
    assert [m] + [] == [m];
  }

  /** A sensitive key that is not sensitive once cut: its text is kept, rewritten as any other. */
  lemma LongKeyKept(p: Policy, stem: string, ending: string, text: string)
    requires p.maxDepth >= 1 && p.maxItems >= 1 && p.maxNodes >= 2 && p.kind("") == Normal
    requires |stem| == KEY_LIMIT && p.kind(stem + ending) == Secret && p.kind(stem) == Normal
    ensures Redact(p, Dict([Member(stem + ending, Str(text))])) == Dict([Member(stem, Str(p.plain(text)))])
  {
    OneText(p, stem + ending, text);
    assert SafeKey(stem + ending) == stem;
    OpenText(p, text, stem);
  }
}
