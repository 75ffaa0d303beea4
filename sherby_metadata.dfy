/** The `sherby-metadata` element (sherby-metadata.js:40-202): it adopts the
    `<meta>` elements already in the page, reconciles its `data` record with
    the head whenever it is updated, and takes new records from
    `sherby-metadata` events. */
module SherbyMetadataElement {
  import opened JsValues
  import opened Dom
  import opened Registry
  import opened Reconciler

  /** The page the component works on: the `<meta>` children of its head, in
      order, and its title. `nextId` hands out the identity of the next element
      `createElement` makes. */
  class Document {
    var head: seq<Meta>
    var title: Value
    var nextId: nat

    predicate Valid()
      reads this
    {
      IdsDistinct(head) && forall m | m in head :: m.id < nextId
    }

    constructor (head: seq<Meta>, title: string, nextId: nat)
      requires IdsDistinct(head) && forall m | m in head :: m.id < nextId
      ensures Valid()
      ensures this.head == head && this.title == Str(title) && this.nextId == nextId
    {
      this.head := head;
      this.title := Str(title);
      this.nextId := nextId;
    }
  }

  /** A `sherby-metadata` event: its payload and whether its propagation was
      stopped. */
  class MetadataEvent {
    const detail: Value
    var propagationStopped: bool

    constructor (detail: Value)
      ensures this.detail == detail && !propagationStopped
    {
      this.detail := detail;
      propagationStopped := false;
    }
  }

  /** The payload test of `_onMetadataEvent`: `event.detail && typeof
      event.detail === 'object' && event.detail.constructor === Object`. It
      admits exactly the objects whose constructor is `Object`, so no
      primitive, `null`, `undefined`, array, `Date`, `RegExp`, `globalThis` or
      instance of another class. */
  function Admits(detail: Value): (ok: bool)
    ensures ok <==> detail.Obj? && detail.ctor == ObjectCtor
  {
    Truthy(detail) && TypeOf(detail) == "object" && detail.ctor == ObjectCtor
  }

  class SherbyMetadata {
    /** The metadata record, `{}` until one is set. */
    var data: Value
    /** `this._metaElements`: key to the identity of the tracked element. */
    var metaElements: Table
    const document: Document

    /** The page state the reconciler works on. */
    ghost function Snapshot(): State
      reads this, document
    {
      State(document.head, metaElements, document.title, document.nextId)
    }

    ghost predicate Valid()
      reads this, document
    {
      Reconciler.Valid(Snapshot())
    }

    /** `constructor()`: an empty record, and the registry seeded from the
        page. */
    constructor (document: Document)
      requires document.Valid()
      ensures Valid()
      ensures this.document == document && data == EMPTY_OBJECT
      ensures metaElements == Seed(document.head)
    {
      this.data := EMPTY_OBJECT;
      this.metaElements := map[];
      this.document := document;
      new;
      InitializeMetaElements();
      SeedTracksScanned(document.head);
    }

    /** `_initializeMetaElements()`: enter each `<meta>` element of the head
        under its seed key, in document order, into a fresh table, then make
        that table the registry. The page itself is not changed. */
    method InitializeMetaElements()
      modifies this`metaElements
      ensures metaElements == Seed(document.head)
    {
      var metas := document.head;
      var elements: Table := map[];
      var i := 0;
      while i < |metas|
        invariant 0 <= i <= |metas|
        invariant elements == Seed(metas[..i])
      {
        var meta := metas[i];
        var name := SeedKey(meta);
        if name.Some? {
          elements := elements[name.value := meta.id];
        }
        assert metas[..i + 1][..i] == metas[..i];
        i := i + 1;
      }
      assert metas[..i] == metas;
      metaElements := elements;
    }

    /** `updated()` once `data` has changed: one pass over the keys `for...in`
        visits in `data`. */
    method Updated()
      requires Valid()
      modifies this`metaElements, document
      ensures Valid()
      ensures Snapshot() == Reconcile(old(Snapshot()), ForIn(data))
    {
      var props := ForIn(data);
      var i := 0;
      while i < |props|
        invariant 0 <= i <= |props|
        invariant Snapshot() == Reconcile(old(Snapshot()), props[..i])
      {
        var name, value := props[i].key, props[i].value;
        assert props[..i + 1][..i] == props[..i];
        if !props[i].own {
          // an inherited key: skipped
        } else if name == TITLE_KEY {
          document.title := TitleOf(value);
        } else if name in metaElements {
          if Truthy(value) {
            document.head := WithContent(document.head, metaElements[name], value);
          } else {
            document.head := Detached(document.head, metaElements[name]);
            metaElements := metaElements - {name};
          }
        } else if Truthy(value) {
          var meta := Blank(document.nextId);
          document.nextId := document.nextId + 1;
          meta := SetAttribute(meta, IdentityAttribute(name), name);
          meta := meta.(content := value);
          document.head := Appended(document.head, meta);
          metaElements := metaElements[name := meta.id];
        }
        i := i + 1;
      }
      assert props[..i] == props;
      ReconcileEvolves(old(Snapshot()), props);
    }

    /** `_onMetadataEvent(event)`: take the payload as the new record if it is
        a plain object, leave the record alone otherwise, and stop the event's
        propagation either way. */
    method OnMetadataEvent(event: MetadataEvent)
      modifies this`data, event
      ensures data == if Admits(event.detail) then event.detail else old(data)
      ensures event.propagationStopped
    {
      if Admits(event.detail) {
        data := event.detail;
      }
      event.propagationStopped := true;
    }
  }
}
