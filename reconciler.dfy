/** The reconciliation pass of `updated` (sherby-metadata.js:109-161) as a
    function of the page state: for each key a `for...in` loop visits in the
    data record, write the document title, update, remove or create a tracked
    `<meta>` element, or do nothing. */
module Reconciler {
  import opened JsValues
  import opened Dom
  import opened Registry

  /** What a pass reads and writes: the head's `<meta>` children, the registry,
      the document title, and the identity the next created element gets. */
  datatype State = State(head: seq<Meta>, registry: Table, title: Value, nextId: nat)

  /** The key that targets the document title instead of a `<meta>` element. */
  const TITLE_KEY := "title"

  /** Every element has its own identity and was allocated before `nextId`;
      every tracked element is a child of the head; no element is tracked twice. */
  predicate Valid(s: State) {
    && IdsDistinct(s.head)
    && (forall m | m in s.head :: m.id < s.nextId)
    && s.registry.Values <= Ids(s.head)
    && Injective(s.registry)
  }

  /** The element tracked under `key`, if any. */
  function Tracked(s: State, key: string): Option<Meta> {
    if key in s.registry then Find(s.head, s.registry[key]) else None
  }

  /** `data[name] || ''`: the title written for the value `v`. */
  function TitleOf(v: Value): (t: Value)
    ensures Truthy(v) ==> t == v
    ensures !Truthy(v) ==> t == Str("")
  {
    if Truthy(v) then v else Str("")
  }

  /** One iteration of the loop, for the visited property `p`: it allocates at
      most one element, adds at most one to the head, writes the title only for
      an own `title` key, and leaves a visited own key tracked exactly when its
      value is truthy. */
  function Step(s: State, p: Prop): (r: State)
    ensures r.nextId == s.nextId || r.nextId == s.nextId + 1
    ensures |r.head| <= |s.head| + 1
    ensures r.title == if p.own && p.key == TITLE_KEY then TitleOf(p.value) else s.title
    ensures p.own && p.key != TITLE_KEY ==> (p.key in r.registry <==> Truthy(p.value))
  {
    if !p.own then s
    else if p.key == TITLE_KEY then s.(title := TitleOf(p.value))
    else if p.key in s.registry then
      var id := s.registry[p.key];
      if Truthy(p.value) then s.(head := WithContent(s.head, id, p.value))
      else s.(head := Detached(s.head, id), registry := s.registry - {p.key})
    else if !Truthy(p.value) then s
    else
      var m := NewMeta(s.nextId, p.key, p.value);
      s.(head := Appended(s.head, m), registry := s.registry[p.key := m.id], nextId := s.nextId + 1)
  }

  /** The whole pass over the properties `ps`, in visiting order: it
      allocates at most one element, and grows the head by at most one, per
      visited property. */
  function Reconcile(s: State, ps: seq<Prop>): (r: State)
    ensures s.nextId <= r.nextId <= s.nextId + |ps|
    ensures |r.head| <= |s.head| + |ps|
    decreases |ps|
  {
    if ps == [] then s else Step(Reconcile(s, ps[..|ps| - 1]), ps[|ps| - 1])
  }

  /** A pass over `ps` followed by `p` is the pass over `ps + [p]`. */
  lemma ReconcileSnoc(s: State, ps: seq<Prop>, p: Prop)
    ensures Reconcile(s, ps + [p]) == Step(Reconcile(s, ps), p)
  {
    assert (ps + [p])[..|ps|] == ps;
  }

  /** The own properties of `ps`, in order. */
  function OwnProps(ps: seq<Prop>): (r: seq<Prop>)
    ensures forall p | p in r :: p in ps && p.own
    ensures forall p | p in ps && p.own :: p in r
  {
    if ps == [] then []
    else
      var last := ps[|ps| - 1];
      assert forall p | p in ps :: p in ps[..|ps| - 1] || p == last;
      OwnProps(ps[..|ps| - 1]) + (if last.own then [last] else [])
  }

  /** The keys that a pass over `ps` may turn into a `<meta>` change. */
  function MetaKeys(ps: seq<Prop>): set<string> {
    set p | p in ps && p.own && p.key != TITLE_KEY :: p.key
  }

  /** What a pass may do to the page, relating the state before, `s`, to the
      state after, `r`: identities are only allocated, never reused; every
      element in the head afterwards is either new or an element that was
      there before with the same identity attributes; every registry entry is
      either unchanged or points to a new element; and elements that were not
      tracked (orphans, unrelated tags) are never touched. */
  predicate Evolves(s: State, r: State) {
    && s.nextId <= r.nextId
    && (forall m | m in r.head ::
          s.nextId <= m.id || (Find(s.head, m.id).Some? && SameElement(Find(s.head, m.id).value, m)))
    && (forall k | k in r.registry :: (k in s.registry && r.registry[k] == s.registry[k]) || s.nextId <= r.registry[k])
    && (forall m | m in s.head && m.id !in s.registry.Values :: m in r.head)
  }

  /** After a pass, the page shows what the property `p` asked for: an
      inherited property asks for nothing; `title` for the title; a truthy
      value for a tracked element with that content; a falsy one for no
      tracked element. */
  predicate Reflects(s: State, p: Prop) {
    if !p.own then true
    else if p.key == TITLE_KEY then s.title == TitleOf(p.value)
    else if Truthy(p.value) then Tracked(s, p.key).Some? && Tracked(s, p.key).value.content == p.value
    else p.key !in s.registry
  }

  // ---------------------------------------------------------------------------
  // One iteration, case by case

  lemma FindMember(head: seq<Meta>, m: Meta)
    requires IdsDistinct(head) && m in head
    ensures Find(head, m.id) == Some(m)
  {
    var f := Find(head, m.id).value;
    var i :| 0 <= i < |head| && head[i] == m;
    var j :| 0 <= j < |head| && head[j] == f;
    assert i == j;
  }

  /** The key `title` writes the document title (the value if truthy, else
      `""`) and touches no `<meta>` element and no registry entry. */
  lemma StepTitle(s: State, p: Prop)
    requires p.own && p.key == TITLE_KEY
    ensures var r := Step(s, p);
      && r.head == s.head && r.registry == s.registry && r.nextId == s.nextId
      && r.title == if Truthy(p.value) then p.value else Str("")
  {
  }

  /** A tracked key with a truthy value gives that same element the new
      content: same head length, same identities, same registry, same title. */
  lemma StepUpdates(s: State, p: Prop)
    requires Valid(s)
    requires p.own && p.key != TITLE_KEY && p.key in s.registry && Truthy(p.value)
    ensures var r := Step(s, p);
      && r.registry == s.registry && r.title == s.title && r.nextId == s.nextId
      && |r.head| == |s.head| && Ids(r.head) == Ids(s.head)
      && Tracked(s, p.key).Some?
      && Tracked(r, p.key) == Some(Tracked(s, p.key).value.(content := p.value))
  {
    var id := s.registry[p.key];
    assert id in s.registry.Values;
    WithContentIds(s.head, id, p.value);
    FindWithContent(s.head, id, p.value, id);
  }

  /** A tracked key with a falsy value removes exactly its element from the
      head, keeping the others in order, and untracks the key. */
  lemma StepRemoves(s: State, p: Prop)
    requires Valid(s)
    requires p.own && p.key != TITLE_KEY && p.key in s.registry && !Truthy(p.value)
    ensures var r := Step(s, p);
      && r.registry == s.registry - {p.key} && r.title == s.title && r.nextId == s.nextId
      && Tracked(r, p.key) == None
      && |r.head| == |s.head| - 1
      && forall i :: 0 <= i < |s.head| && s.head[i].id == s.registry[p.key] ==> r.head == s.head[..i] + s.head[i + 1..]
  {
    var id := s.registry[p.key];
    var r := Step(s, p);
    assert id in s.registry.Values;
    var i :| 0 <= i < |s.head| && s.head[i].id == id;
    DetachedAt(s.head, i);
    assert r.head == s.head[..i] + s.head[i + 1..];
    forall j | 0 <= j < |s.head| && s.head[j].id == id ensures r.head == s.head[..j] + s.head[j + 1..] {
      assert j == i;
    }
  }

  /** An untracked key with a falsy value changes nothing at all. */
  lemma StepIgnoresFalsy(s: State, p: Prop)
    requires p.own && p.key != TITLE_KEY && p.key !in s.registry && !Truthy(p.value)
    ensures Step(s, p) == s
  {
  }

  /** An untracked key with a truthy value appends exactly one new element at
      the end of the head and tracks it under the key; the element carries the
      key in `property` for an `og:` key and in `name` otherwise, and the value
      as its content. */
  lemma StepCreates(s: State, p: Prop)
    requires Valid(s)
    requires p.own && p.key != TITLE_KEY && p.key !in s.registry && Truthy(p.value)
    ensures var r := Step(s, p);
      && |r.head| == |s.head| + 1 && r.head[..|s.head|] == s.head
      && r.registry == s.registry[p.key := s.nextId] && r.title == s.title
      && Tracked(r, p.key) == Some(r.head[|s.head|])
      && r.head[|s.head|].id !in Ids(s.head)
      && r.head[|s.head|].content == p.value
      && (|p.key| >= 3 && p.key[..3] == "og:" ==> r.head[|s.head|].property == Some(p.key) && r.head[|s.head|].name == "")
      && (!(|p.key| >= 3 && p.key[..3] == "og:") ==> r.head[|s.head|].name == p.key && r.head[|s.head|].property == None)
  {
    var m := NewMeta(s.nextId, p.key, p.value);
    FindAppended(s.head, m, s.nextId);
    assert (s.head + [m])[..|s.head|] == s.head;
  }

  /** An inherited property changes nothing. */
  lemma StepSkipsInherited(s: State, p: Prop)
    requires !p.own
    ensures Step(s, p) == s
  {
  }

  /** An iteration touches no key but its own. */
  lemma StepOtherKeys(s: State, p: Prop, k: string)
    requires Valid(s)
    requires k !in MetaKeys([p])
    ensures var r := Step(s, p);
      && (k in r.registry <==> k in s.registry)
      && (k in s.registry ==> r.registry[k] == s.registry[k])
      && Tracked(r, k) == Tracked(s, k)
  {
    assert p in [p];
    if p.own && p.key != TITLE_KEY && k in s.registry {
      var x := s.registry[k];
      if p.key in s.registry {
        var id := s.registry[p.key];
        assert x != id;
        if Truthy(p.value) {
          FindWithContent(s.head, id, p.value, x);
        } else {
          FindDetached(s.head, id, x);
        }
      } else if Truthy(p.value) {
        assert x in s.registry.Values;
        FindAppended(s.head, NewMeta(s.nextId, p.key, p.value), x);
      }
    }
  }

  /** Every element of `head` is found as itself. */
  lemma FindAll(head: seq<Meta>)
    requires IdsDistinct(head)
    ensures forall m | m in head :: Find(head, m.id).Some? && SameElement(Find(head, m.id).value, m)
  {
    forall m | m in head ensures Find(head, m.id) == Some(m) {
      FindMember(head, m);
    }
  }

  lemma StepEvolvesUpdate(s: State, p: Prop)
    requires Valid(s)
    requires p.own && p.key != TITLE_KEY && p.key in s.registry && Truthy(p.value)
    ensures Valid(Step(s, p)) && Evolves(s, Step(s, p))
  {
    var r := Step(s, p);
    var id := s.registry[p.key];
    WithContentIds(s.head, id, p.value);
    FindAll(s.head);
    forall m | m in r.head
      ensures Find(s.head, m.id).Some? && SameElement(Find(s.head, m.id).value, m)
    {
      var i :| 0 <= i < |r.head| && r.head[i] == m;
      assert s.head[i] in s.head;
    }
    forall m | m in s.head && m.id !in s.registry.Values ensures m in r.head {
      var i :| 0 <= i < |s.head| && s.head[i] == m;
      assert r.head[i] == m;
    }
  }

  lemma StepEvolvesRemove(s: State, p: Prop)
    requires Valid(s)
    requires p.own && p.key != TITLE_KEY && p.key in s.registry && !Truthy(p.value)
    ensures Valid(Step(s, p)) && Evolves(s, Step(s, p))
  {
    var r := Step(s, p);
    var id := s.registry[p.key];
    DetachedDistinct(s.head, id);
    FindAll(s.head);
    assert r.registry.Values <= s.registry.Values - {id} by {
      forall x | x in r.registry.Values ensures x in s.registry.Values - {id} {
        var k :| k in r.registry && r.registry[k] == x;
      }
    }
  }

  lemma StepEvolvesCreate(s: State, p: Prop)
    requires Valid(s)
    requires p.own && p.key != TITLE_KEY && p.key !in s.registry && Truthy(p.value)
    ensures Valid(Step(s, p)) && Evolves(s, Step(s, p))
  {
    var r := Step(s, p);
    assert s.nextId !in Ids(s.head);
    FindAll(s.head);
    assert r.registry.Values <= s.registry.Values + {s.nextId} by {
      forall x | x in r.registry.Values ensures x in s.registry.Values + {s.nextId} {
        var k :| k in r.registry && r.registry[k] == x;
      }
    }
  }

  /** An iteration keeps the state valid and only evolves it. */
  lemma StepEvolves(s: State, p: Prop)
    requires Valid(s)
    ensures Valid(Step(s, p)) && Evolves(s, Step(s, p))
  {
    if p.own && p.key != TITLE_KEY && p.key in s.registry {
      if Truthy(p.value) {
        StepEvolvesUpdate(s, p);
      } else {
        StepEvolvesRemove(s, p);
      }
    } else if p.own && p.key != TITLE_KEY && Truthy(p.value) {
      StepEvolvesCreate(s, p);
    } else {
      FindAll(s.head);
    }
  }

  // ---------------------------------------------------------------------------
  // A whole pass

  lemma EvolvesTransitive(s: State, mid: State, r: State)
    requires Valid(s) && Evolves(s, mid) && Evolves(mid, r)
    ensures Evolves(s, r)
  {
    forall m | m in s.head && m.id !in s.registry.Values ensures m in r.head {
      assert m in mid.head;
      forall k | k in mid.registry ensures mid.registry[k] != m.id {
      }
    }
  }

  /** A pass keeps the state valid and only evolves it. */
  lemma {:induction false} ReconcileEvolves(s: State, ps: seq<Prop>)
    requires Valid(s)
    ensures Valid(Reconcile(s, ps)) && Evolves(s, Reconcile(s, ps))
    decreases |ps|
  {
    if ps == [] {
      forall m | m in s.head
        ensures Find(s.head, m.id).Some? && SameElement(Find(s.head, m.id).value, m)
      {
        FindMember(s.head, m);
      }
    } else {
      var mid := Reconcile(s, ps[..|ps| - 1]);
      ReconcileEvolves(s, ps[..|ps| - 1]);
      StepEvolves(mid, ps[|ps| - 1]);
      EvolvesTransitive(s, mid, Reconcile(s, ps));
    }
  }

  /** Only own keys are processed: a pass does exactly what a pass over its own
      properties alone does, so an inherited key never creates, updates or
      removes anything. */
  lemma {:induction false} ReconcileOwnKeysOnly(s: State, ps: seq<Prop>)
    ensures Reconcile(s, ps) == Reconcile(s, OwnProps(ps))
    decreases |ps|
  {
    if ps != [] {
      var init, last := ps[..|ps| - 1], ps[|ps| - 1];
      ReconcileOwnKeysOnly(s, init);
      if last.own {
        var own := OwnProps(init) + [last];
        assert OwnProps(ps) == own;
        assert own[..|own| - 1] == OwnProps(init) && own[|own| - 1] == last;
      } else {
        assert OwnProps(ps) == OwnProps(init) + [] == OwnProps(init);
      }
    }
  }

  /** Keys that the pass does not visit as own non-title keys keep their
      tracked element exactly as it was; the title is touched only through an
      own `title` key. */
  lemma {:induction false} ReconcileLeavesOtherKeys(s: State, ps: seq<Prop>, k: string)
    requires Valid(s)
    requires k !in MetaKeys(ps)
    ensures var r := Reconcile(s, ps);
      && (k in r.registry <==> k in s.registry)
      && (k in s.registry ==> r.registry[k] == s.registry[k])
      && Tracked(r, k) == Tracked(s, k)
      && ((forall p | p in ps :: !p.own || p.key != TITLE_KEY) ==> r.title == s.title)
    decreases |ps|
  {
    if ps != [] {
      var init, last := ps[..|ps| - 1], ps[|ps| - 1];
      assert MetaKeys(init) <= MetaKeys(ps) && MetaKeys([last]) <= MetaKeys(ps) by {
        assert forall p | p in init :: p in ps;
        assert forall p | p in [last] :: p in ps;
      }
      assert forall p | p in init :: p in ps;
      ReconcileLeavesOtherKeys(s, init, k);
      ReconcileEvolves(s, init);
      StepOtherKeys(Reconcile(s, init), last, k);
    }
  }

  /** A later iteration for another key keeps what an earlier one did. */
  lemma StepKeepsReflects(s: State, p: Prop, q: Prop)
    requires Valid(s) && Reflects(s, q) && p.key != q.key
    ensures Reflects(Step(s, p), q)
  {
    if q.own && q.key != TITLE_KEY {
      StepOtherKeys(s, p, q.key);
    }
  }

  /** Every iteration does what its property asks for. */
  lemma StepReflects(s: State, p: Prop)
    requires Valid(s)
    ensures Reflects(Step(s, p), p)
  {
    if p.own && p.key != TITLE_KEY {
      if p.key in s.registry && Truthy(p.value) {
        StepUpdates(s, p);
      } else if p.key !in s.registry && Truthy(p.value) {
        StepCreates(s, p);
      }
    }
  }

  /** After a pass over a record, the page shows every property of it: the
      title of its `title` value, a tracked element with the given content for
      each truthy own key, no tracked element for each falsy own key. */
  lemma {:induction false} ReconcileReflects(s: State, ps: seq<Prop>)
    requires Valid(s) && DistinctKeys(ps)
    ensures forall p | p in ps :: Reflects(Reconcile(s, ps), p)
    decreases |ps|
  {
    if ps != [] {
      var init, last := ps[..|ps| - 1], ps[|ps| - 1];
      var mid := Reconcile(s, init);
      assert DistinctKeys(init);
      ReconcileReflects(s, init);
      ReconcileEvolves(s, init);
      StepReflects(mid, last);
      forall q | q in ps ensures Reflects(Step(mid, last), q) {
        if q != last {
          var i :| 0 <= i < |ps| && ps[i] == q;
          assert i < |ps| - 1 && init[i] == q;
          StepKeepsReflects(mid, last, q);
        }
      }
    }
  }

  /** An iteration whose property is already reflected changes nothing. */
  lemma StepReflected(s: State, p: Prop)
    requires Valid(s) && Reflects(s, p)
    ensures Step(s, p) == s
  {
    if p.own && p.key != TITLE_KEY && Truthy(p.value) {
      WithContentNoop(s.head, s.registry[p.key], p.value);
    }
  }

  /** A pass over properties that are all reflected already changes nothing. */
  lemma {:induction false} ReconcileReflected(s: State, ps: seq<Prop>)
    requires Valid(s) && forall p | p in ps :: Reflects(s, p)
    ensures Reconcile(s, ps) == s
    decreases |ps|
  {
    if ps != [] {
      assert forall p | p in ps[..|ps| - 1] :: p in ps;
      ReconcileReflected(s, ps[..|ps| - 1]);
      StepReflected(s, ps[|ps| - 1]);
    }
  }

  /** Reconciling the same record twice leaves the page as the first pass left
      it: one element per truthy key, same identity, latest content. */
  lemma ReconcileIdempotent(s: State, ps: seq<Prop>)
    requires Valid(s) && DistinctKeys(ps)
    ensures Reconcile(Reconcile(s, ps), ps) == Reconcile(s, ps)
  {
    ReconcileEvolves(s, ps);
    ReconcileReflects(s, ps);
    ReconcileReflected(Reconcile(s, ps), ps);
  }

  /** An adopted or earlier-created element stays the element tracked for its
      key as long as the key stays tracked: it is updated in place, never
      replaced by a new one. */
  lemma {:induction false} ReconcileKeepsTrackedElement(s: State, ps: seq<Prop>, k: string)
    requires Valid(s) && DistinctKeys(ps)
    requires k in s.registry && k in Reconcile(s, ps).registry
    ensures Reconcile(s, ps).registry[k] == s.registry[k]
    decreases |ps|
  {
    if ps != [] {
      var init, last := ps[..|ps| - 1], ps[|ps| - 1];
      var mid := Reconcile(s, init);
      ReconcileEvolves(s, init);
      assert DistinctKeys(init);
      if k in MetaKeys([last]) {
        assert last.key == k;
        assert k !in MetaKeys(init) by {
          forall p | p in init ensures p.key != k {
            var i :| 0 <= i < |init| && init[i] == p;
            assert ps[i] == p;
          }
        }
        ReconcileLeavesOtherKeys(s, init, k);
      } else {
        StepOtherKeys(mid, last, k);
        ReconcileKeepsTrackedElement(s, init, k);
      }
    }
  }

  // ---------------------------------------------------------------------------
  // The registry as the component keeps it: a plain JavaScript object

  /** The key for which assigning to a plain object replaces its prototype
      instead of adding an own property. */
  const PROTO_KEY := "__proto__"

  /** One iteration as written: `this._metaElements` is a plain object, so for
      the key `__proto__` the check `hasOwnProperty` never holds and the
      registration `this._metaElements[name] = meta` adds no own key; every
      other key behaves as in `Step`. */
  function StepAsWritten(s: State, p: Prop): (r: State)
    ensures PROTO_KEY !in s.registry ==> PROTO_KEY !in r.registry
    ensures p.own && p.key == PROTO_KEY && Truthy(p.value) ==> |r.head| == |s.head| + 1 && r.nextId == s.nextId + 1
  {
    if p.own && p.key == PROTO_KEY && Truthy(p.value) then
      var m := NewMeta(s.nextId, p.key, p.value);
      s.(head := Appended(s.head, m), nextId := s.nextId + 1)
    else Step(s, p)
  }

  /** As written, a record with an own `__proto__` key (`JSON.parse` yields one)
      appends a fresh `<meta name="__proto__">` on every pass: two passes over
      `{"__proto__": "x"}` leave two such elements and track neither. */
  lemma ProtoKeyDuplicates()
    ensures var p := Prop(PROTO_KEY, Str("x"), true);
            var s := StepAsWritten(StepAsWritten(State([], map[], Str(""), 0), p), p);
            && |s.head| == 2 && s.head[0].name == s.head[1].name == PROTO_KEY
            && PROTO_KEY !in s.registry
  {
  }

  /** The same two passes with the registry as a true key table leave one
      element, tracked under `__proto__`. */
  lemma ProtoKeyTrackedOnce()
    ensures var p := Prop(PROTO_KEY, Str("x"), true);
            var s := Reconcile(State([], map[], Str(""), 0), [p]);
            && Reconcile(s, [p]) == s
            && |s.head| == 1 && s.head[0].name == PROTO_KEY && PROTO_KEY in s.registry
  {
    var p := Prop(PROTO_KEY, Str("x"), true);
    var s0 := State([], map[], Str(""), 0);
    ReconcileIdempotent(s0, [p]);
  }
}
