/** The behaviours that the component's test suite (test/sherby-metadata.test.js)
    checks, stated on the model. */
module Scenarios {
  import opened JsValues
  import opened Dom
  import opened Registry
  import opened Reconciler
  import opened SherbyMetadataElement

  /** A page with the given `<meta>` elements and title, registry seeded from it. */
  function Page(head: seq<Meta>, title: string, nextId: nat): State {
    State(head, Seed(head), Str(title), nextId)
  }

  /** The example record used below: a title, a plain key and an `og:` key. */
  function ExampleRecord(): seq<Prop> {
    [Prop("title", Str("New"), true), Prop("description", Str("D"), true), Prop("og:title", Str("T"), true)]
  }

  /** The page after reconciling `ExampleRecord()` on an empty head. */
  function ExamplePage(): State {
    State([Meta(0, "description", None, Str("D")), Meta(1, "", Some("og:title"), Str("T"))],
          map["description" := 0, "og:title" := 1], Str("New"), 2)
  }

  /** Creating from an empty head: a `name` element for a plain key, a
      `property` element for an `og:` key, the title written directly. */
  lemma ExampleCreates()
    ensures Reconcile(Page([], "Old", 0), ExampleRecord()) == ExamplePage()
  {
    var ps := ExampleRecord();
    ReconcileThree(Page([], "Old", 0), ps[0], ps[1], ps[2]);
    assert [ps[0], ps[1], ps[2]] == ps;
    ExampleSteps();
  }

  /** A pass over three properties is three iterations. */
  lemma ReconcileThree(s: State, a: Prop, b: Prop, c: Prop)
    ensures Reconcile(s, [a, b, c]) == Step(Step(Step(s, a), b), c)
  {
    ReconcileSnoc(s, [], a);
    assert [] + [a] == [a];
    ReconcileSnoc(s, [a], b);
    assert [a] + [b] == [a, b];
    ReconcileSnoc(s, [a, b], c);
    assert [a, b] + [c] == [a, b, c];
  }

  /** The three iterations of `ExampleCreates`, one at a time. */
  lemma ExampleSteps()
    ensures var ps := ExampleRecord();
            var s1 := State([], map[], Str("New"), 0);
            var s2 := State([Meta(0, "description", None, Str("D"))], map["description" := 0], Str("New"), 1);
            && Step(Page([], "Old", 0), ps[0]) == s1
            && Step(s1, ps[1]) == s2
            && Step(s2, ps[2]) == ExamplePage()
  {
    assert "description"[..3] == "des" != "og:";
    assert "og:title"[..3] == "og:";
  }

  /** A later falsy value removes just its own element and leaves the title. */
  lemma ExampleRemoves()
    ensures Reconcile(ExamplePage(), [Prop("description", Str(""), true)]) ==
            ExamplePage().(head := [Meta(1, "", Some("og:title"), Str("T"))], registry := map["og:title" := 1])
  {
    var q := Prop("description", Str(""), true);
    ReconcileSnoc(ExamplePage(), [], q);
    assert [] + [q] == [q];
    DetachedAt(ExamplePage().head, 0);
    assert ExamplePage().head[1..] == [Meta(1, "", Some("og:title"), Str("T"))];
  }

  /** An inherited key creates nothing, the own key next to it does
      (test lines 168-197). */
  lemma InheritedKeyIgnored()
    ensures var r := Reconcile(Page([], "", 0),
                               [Prop("superdata", Str("Description from superdata"), true),
                                Prop("description", Str("Description from data"), false)]);
            r.head == [Meta(0, "superdata", None, Str("Description from superdata"))]
  {
    var ps := [Prop("superdata", Str("Description from superdata"), true),
               Prop("description", Str("Description from data"), false)];
    assert ps[..1][..0] == [];
  }

  /** Falsy values for untracked keys create nothing (test lines 199-224). */
  lemma FalsyValuesCreateNothing()
    ensures var ps := [Prop("description", Undefined, true), Prop("fragment", Num(0.0), true),
                       Prop("keywords", Null, true), Prop("viewport", Bool(false), true),
                       Prop("og:title", Str(""), true)];
            Reconcile(Page([], "", 0), ps) == Page([], "", 0)
  {
    var ps := [Prop("description", Undefined, true), Prop("fragment", Num(0.0), true),
               Prop("keywords", Null, true), Prop("viewport", Bool(false), true),
               Prop("og:title", Str(""), true)];
    ReconcileReflected(Page([], "", 0), ps);
  }

  /** The three elements the update and removal tests start from: an Open
      Graph one, a named one, and one named by an attribute the registry does
      not read. */
  function TestHead(): seq<Meta> {
    [Meta(0, "", Some("og:description"), Str("Old Open Graph description")),
     Meta(1, "description", None, Str("Old description")),
     Meta(2, "", None, Str("Old description"))]
  }

  /** Seeding adopts the first two and skips the third. */
  lemma TestHeadSeeded()
    ensures Seed(TestHead()) == map["og:description" := 0, "description" := 1]
  {
    var h := TestHead();
    assert h[..2][..1] == h[..1] && h[..1][..0] == [];
    assert Seed(h[..1]) == map["og:description" := 0];
    assert Seed(h[..2]) == map["og:description" := 0, "description" := 1];
    assert SeedKey(h[2]) == None;
  }

  /** Existing elements are updated in place, not duplicated (test lines
      227-262). */
  lemma ExistingElementUpdatedInPlace()
    ensures Reconcile(Page(TestHead(), "", 3), [Prop("description", Str("Description"), true)]).head ==
            TestHead()[1 := Meta(1, "description", None, Str("Description"))]
    ensures Reconcile(Page(TestHead(), "", 3), [Prop("og:description", Str("Description"), true)]).head ==
            TestHead()[0 := Meta(0, "", Some("og:description"), Str("Description"))]
  {
    TestHeadSeeded();
  }

  /** A falsy value removes the existing element and only that one (test lines
      265-311). */
  lemma ExistingElementRemoved()
    ensures Reconcile(Page(TestHead(), "", 3), [Prop("description", Str(""), true)]).head == [TestHead()[0], TestHead()[2]]
    ensures Reconcile(Page(TestHead(), "", 3), [Prop("og:description", Str(""), true)]).head == TestHead()[1..]
  {
    NameElementRemoved();
    PropertyElementRemoved();
  }

  /** The `name` case of `ExistingElementRemoved`. */
  lemma NameElementRemoved()
    ensures Reconcile(Page(TestHead(), "", 3), [Prop("description", Str(""), true)]).head == [TestHead()[0], TestHead()[2]]
  {
    TestHeadSeeded();
    DetachedAt(TestHead(), 1);
    assert TestHead()[..1] + TestHead()[2..] == [TestHead()[0], TestHead()[2]];
  }

  /** The `property` case of `ExistingElementRemoved`. */
  lemma PropertyElementRemoved()
    ensures Reconcile(Page(TestHead(), "", 3), [Prop("og:description", Str(""), true)]).head == TestHead()[1..]
  {
    TestHeadSeeded();
    DetachedAt(TestHead(), 0);
  }

  /** The payloads the event tests send: plain objects are taken, the rest are
      not (test lines 319-352). */
  lemma EventPayloads()
    ensures Admits(EMPTY_OBJECT)
    ensures Admits(Obj(ObjectCtor, [Prop("description", Str("Description"), true), Prop("title", Str("Title"), true)]))
    ensures !Admits(Str("description")) && !Admits(Num(1.0)) && !Admits(Infinity(false)) && !Admits(NaN)
    ensures !Admits(Obj(ArrayCtor, [Prop("0", Str("description"), true)]))
    ensures !Admits(Obj(OtherCtor("Window"), [])) && !Admits(Obj(DateCtor, [])) && !Admits(Obj(RegExpCtor, []))
    ensures !Admits(Null) && !Admits(Undefined)
  {
  }
}
